/** What a rendered page shows, block by block, in terms of the blocks of its source alone. */
module NotionShown {
  import RichText
  import opened Sequences
  import opened NotionTree
  import opened NotionModel
  import opened NotionForest

  // ---------------------------------------------------------------- texts and colours

  /** The parts read as the text when written out with their markers, and are its leftmost marked stretches. */
  ghost predicate Reads(parts: Text, text: string) {
    FlatMap(RichText.Markdown().source, parts) == text && RichText.AreParts(parts, text)
  }

  lemma PartsRead(text: string)
    ensures Reads(RichText.Parts(text), text)
  {
    RichText.PartsPreserveText(text);
    RichText.PartsAreTheParts(text);
  }

  /** No colour is the default one, and the background of a colour is spelled out. */
  ghost predicate IsColor(shown: string, color: string) {
    && (color == "" ==> shown == "default")
    && (forall base | color == base + "_bg" :: shown == base + "_background")
    && (color != "" && (forall base :: color != base + "_bg") ==> shown == color)
  }

  lemma ApiColorIsColor(color: string)
    ensures IsColor(ApiColor(color), color)
  {
    forall base | color == base + "_bg" ensures ApiColor(color) == base + "_background" {
      assert color[|color| - 3..] == "_bg" && color[..|color| - 3] == base;
    }
    if color != "" && |color| >= 3 && color[|color| - 3..] == "_bg" {
      assert color == color[..|color| - 3] + "_bg";
    }
  }

  /** The first of the texts that is not empty, or the last. */
  function FirstOf(a: string, b: string): string {
    if a != "" then a else b
  }

  // ---------------------------------------------------------------- one block

  /** The block type of each kind of plain text. */
  function TypeName(kind: Kind): string {
    match kind
    case Heading1 => "heading_1"
    case Heading2 => "heading_2"
    case Heading3 => "heading_3"
    case Quote => "quote"
    case Bullet => "bulleted_list_item"
    case Numbered => "numbered_list_item"
    case Toggle => "toggle"
    case _ => "paragraph"
  }

  /** The text a block shows when it shows nothing but text. */
  function PlainText(ast: Ast): string {
    match ast.kind
    case Empty => ""
    case Toggle => FirstOf(ast.summary, "Toggle")
    case Image => FirstOf(ast.caption, "Image unavailable")
    case FileRef => FirstOf(ast.text, "File")
    case PageRef => Linked(FirstOf(ast.text, "Page"), ast.url)
    case DatabaseRef => Linked(FirstOf(ast.text, "Database"), ast.url)
    case TextKind => FirstOf(ast.text, FirstOf(ast.labelText, ast.raw))
    case OtherKind => FirstOf(ast.text, FirstOf(ast.labelText, ast.raw))
    case _ => ast.text
  }

  function Linked(name: string, url: string): string {
    if url != "" then "[" + name + "](" + url + ")" else name
  }

  /** What a block carries, field by field. */
  ghost predicate ShowsContent(c: Content, ast: Ast) {
    match ast.kind
    case Todo => c.TodoBlock? && Reads(c.text, ast.text) && IsColor(c.color, ast.color) && c.checked == ast.checked
    case Divider => c.DividerBlock?
    case Code => c.CodeBlock? && Reads(c.text, ast.content) && c.language == FirstOf(ast.language, "plain text")
    case Equation => c.EquationBlock? && c.expression == ast.content
    case Toc => c.TocBlock? && IsColor(c.color, ast.color)
    case Image => if ast.url == "" then ShowsText(c, ast) else ShowsFile(c, "image", ast.url, ast.caption)
    case FileRef => if ast.url == "" then ShowsText(c, ast) else ShowsFile(c, "file", ast.url, FirstOf(ast.text, "File"))
    case Callout =>
      && c.CalloutBlock? && IsColor(c.color, ast.color) && c.icon == FirstOf(ast.icon, "\U{1F4A1}")
      && Reads(c.text, if ast.children != [] && ast.children[0].kind == TextKind then ast.children[0].text else "")
    case Synced => c.SyncedBlock?
    case Columns => c.ColumnListBlock?
    case Table =>
      && c.TableBlock? && c.columnHeader == ast.headerRow && c.rowHeader == ast.headerColumn && IsWidth(c.width, ast.rows)
    case _ => ShowsText(c, ast)
  }

  ghost predicate ShowsText(c: Content, ast: Ast) {
    && c.TextBlock? && c.blockType == TypeName(ast.kind) && Reads(c.text, PlainText(ast)) && IsColor(c.color, ast.color)
  }

  ghost predicate ShowsFile(c: Content, blockType: string, url: string, caption: string) {
    c.FileBlock? && c.blockType == blockType && c.url == url && Reads(c.caption, caption)
  }

  /** The length of the longest row, and at least one. */
  ghost predicate IsWidth(width: nat, rows: seq<seq<string>>) {
    && width >= 1 && (forall r | r in rows :: |r| <= width)
    && (width == 1 || exists r | r in rows :: |r| == width)
  }

  /** A row of cells, each with its text, and empty ones up to the width. */
  ghost predicate ShowsRow(c: Content, row: seq<string>, width: nat) {
    && c.RowBlock? && |c.cells| == width
    && forall j | 0 <= j < width :: Reads(c.cells[j], if j < |row| then row[j] else "")
  }

  lemma {:induction false} WidthIsTheLongest(rows: seq<seq<string>>)
    ensures IsWidth(Width(rows), rows)
  {
    if rows != [] {
      var init, last := rows[..|rows| - 1], rows[|rows| - 1];
      WidthIsTheLongest(init);
      if Width(rows) != Width(init) {
        assert last in rows && |last| == Width(rows);
      } else if Width(rows) > 1 {
        var r :| r in init && |r| == Width(init);
        assert r in rows;
      }
    }
  }

  lemma CellsShowTheRow(row: seq<string>, width: nat)
    ensures ShowsRow(RowBlock(Cells(row, width)), row, width)
  {
    hide Reads, RichText.Parts;
    forall j | 0 <= j < width ensures Reads(Cells(row, width)[j], if j < |row| then row[j] else "") {
      PartsRead(if j < |row| then row[j] else "");
    }
  }

  lemma TextIsShown(ast: Ast, blockType: string, text: string)
    requires blockType == TypeName(ast.kind) && text == PlainText(ast)
    ensures ShowsText(TextOf(blockType, text, ast), ast)
  {
    hide Reads, IsColor, ApiColor, RichText.Parts, TypeName, PlainText;
    PartsRead(text);
    ApiColorIsColor(ast.color);
  }

  lemma TextKindsAreShown(ast: Ast)
    requires ast.kind !in {Todo, Divider, Code, Equation, Toc, Callout, Synced, Columns, Table}
    requires ast.kind in {Image, FileRef} ==> ast.url == ""
    ensures ShowsText(ContentOf(ast), ast)
  {
    hide ShowsText, TextOf;
    TextIsShown(ast, TypeName(ast.kind), PlainText(ast));
  }

  lemma FilesAreShown(ast: Ast)
    requires ast.kind in {Image, FileRef} && ast.url != ""
    ensures ShowsContent(ContentOf(ast), ast)
  {
    hide Reads, RichText.Parts;
    PartsRead(ast.caption);
    PartsRead(FirstOf(ast.text, "File"));
  }

  lemma ContentIsShown(ast: Ast)
    ensures ShowsContent(ContentOf(ast), ast)
  {
    hide Reads, IsColor, ApiColor, RichText.Parts, ShowsText, TextOf, IsWidth, Width;
    ApiColorIsColor(ast.color);
    match ast.kind
    case Todo => PartsRead(ast.text);
    case Divider =>
    case Code => PartsRead(ast.content);
    case Equation =>
    case Toc =>
    case Callout => PartsRead(if AbsorbsText(ast) then ast.children[0].text else "");
    case Synced =>
    case Columns =>
    case Table => WidthIsTheLongest(ast.rows);
    case Image => if ast.url == "" { TextKindsAreShown(ast); } else { FilesAreShown(ast); }
    case FileRef => if ast.url == "" { TextKindsAreShown(ast); } else { FilesAreShown(ast); }
    case _ => TextKindsAreShown(ast);
  }

  // ---------------------------------------------------------------- the whole page

  /** The block `id` below `parent` carries this, and its flag tells whether it has children. */
  ghost predicate IsBlock(m: Maps, id: string, parent: string) {
    && id in m.blocks && m.blocks[id].id == id && (m.blocks[id].hasChildren <==> ChildrenOf(m, id) != [])
    && id in m.parents && m.parents[id] == parent
  }

  /** The block `id` shows the source block `ast`, and its children, in order, what is in it. */
  ghost predicate Shows(m: Maps, id: string, parent: string, ast: Ast)
    decreases ast
  {
    && IsBlock(m, id, parent) && ShowsContent(m.blocks[id].content, ast)
    && match ast.kind
       case Columns => ShowsColumns(m, ChildrenOf(m, id), id, ast.columns)
       case Table => ShowsRows(m, ChildrenOf(m, id), id, ast.rows, m.blocks[id].content.width)
       case Callout =>
         ShowsAll(m, ChildrenOf(m, id), id,
                  if ast.children != [] && ast.children[0].kind == TextKind then ast.children[1..] else ast.children)
       case _ => ShowsAll(m, ChildrenOf(m, id), id, ast.children)
  }

  ghost predicate ShowsAll(m: Maps, siblings: seq<string>, parent: string, asts: seq<Ast>)
    decreases asts
  {
    |siblings| == |asts| && forall i | 0 <= i < |asts| :: Shows(m, siblings[i], parent, asts[i])
  }

  ghost predicate ShowsColumns(m: Maps, siblings: seq<string>, parent: string, columns: seq<Column>)
    decreases columns
  {
    && |siblings| == |columns|
    && forall i | 0 <= i < |columns| :: ShowsColumn(m, siblings[i], parent, columns[i])
  }

  ghost predicate ShowsColumn(m: Maps, id: string, parent: string, column: Column)
    decreases column
  {
    && IsBlock(m, id, parent) && m.blocks[id].content == ColumnBlock
    && ShowsAll(m, ChildrenOf(m, id), id, column.blocks)
  }

  lemma OneMoreColumn(m: Maps, siblings: seq<string>, parent: string, columns: seq<Column>, id: string, column: Column)
    requires ShowsColumns(m, siblings, parent, columns) && ShowsColumn(m, id, parent, column)
    ensures ShowsColumns(m, siblings + [id], parent, columns + [column])
  {
    hide ShowsColumn;
  }

  ghost predicate ShowsRows(m: Maps, siblings: seq<string>, parent: string, rows: seq<seq<string>>, width: nat) {
    && |siblings| == |rows|
    && forall i | 0 <= i < |rows| :: ShowsRowBlock(m, siblings[i], parent, rows[i], width)
  }

  ghost predicate ShowsRowBlock(m: Maps, id: string, parent: string, row: seq<string>, width: nat) {
    IsBlock(m, id, parent) && ShowsRow(m.blocks[id].content, row, width)
  }

  lemma OneMoreRow(m: Maps, siblings: seq<string>, parent: string, rows: seq<seq<string>>, width: nat, id: string, row: seq<string>)
    requires ShowsRows(m, siblings, parent, rows, width) && ShowsRowBlock(m, id, parent, row, width)
    ensures ShowsRows(m, siblings + [id], parent, rows + [row], width)
  {
    hide ShowsRowBlock;
  }

  lemma LaidIsBlock(ids: Ids, m: Maps, t: Tree, n: nat, parent: string)
    requires Laid(ids, m, t, n, parent)
    ensures IsBlock(m, ids.make(n), parent) && m.blocks[ids.make(n)].content == t.content
    ensures ChildrenOf(m, ids.make(n)) == SiblingIds(ids, t.children, n + 1)
    ensures LaidAll(ids, m, t.children, n + 1, ids.make(n))
  {
    hide LaidAll;
  }

  /** Siblings laid out are one fewer and the last. */
  lemma LaidAllSplits(ids: Ids, m: Maps, ts: seq<Tree>, last: Tree, n: nat, parent: string)
    requires LaidAll(ids, m, ts + [last], n, parent)
    ensures LaidAll(ids, m, ts, n, parent) && Laid(ids, m, last, n + SizeAll(ts), parent)
    ensures SiblingIds(ids, ts + [last], n) == SiblingIds(ids, ts, n) + [ids.make(n + SizeAll(ts))]
  {
    hide Laid, SizeAll;
    assert (ts + [last])[..|ts|] == ts;
  }

  lemma {:induction false} LaidShows(ids: Ids, m: Maps, ast: Ast, n: nat, parent: string)
    requires Laid(ids, m, Lower(NotionRendering(), ast), n, parent)
    ensures Shows(m, ids.make(n), parent, ast)
    decreases ast
  {
    hide Laid, LaidAll, LowerAll, LowerRows, LowerColumns, SiblingIds, ShowsContent, IsBlock, ChildrenOf, ContentOf, Width;
    var r := NotionRendering();
    LaidIsBlock(ids, m, Lower(r, ast), n, parent);
    LoweredContentIsShown(ast);
    match ast.kind
    case Columns => LaidColumnsShow(ids, m, ast.columns, n + 1, ids.make(n));
    case Table => LaidRowsShow(ids, m, ast.rows, Width(ast.rows), n + 1, ids.make(n));
    case Callout => LaidAllShows(ids, m, if AbsorbsText(ast) then ast.children[1..] else ast.children, n + 1, ids.make(n));
    case _ => LaidAllShows(ids, m, ast.children, n + 1, ids.make(n));
  }

  lemma LoweredContentIsShown(ast: Ast)
    ensures ShowsContent(Lower(NotionRendering(), ast).content, ast)
    ensures ast.kind == Table ==>
              Lower(NotionRendering(), ast).content.TableBlock? && Lower(NotionRendering(), ast).content.width == Width(ast.rows)
  {
    hide ShowsContent, LowerAll, LowerRows, LowerColumns, Width;
    ContentIsShown(ast);
  }

  lemma {:induction false} LaidAllShows(ids: Ids, m: Maps, asts: seq<Ast>, n: nat, parent: string)
    requires LaidAll(ids, m, LowerAll(NotionRendering(), asts), n, parent)
    ensures ShowsAll(m, SiblingIds(ids, LowerAll(NotionRendering(), asts), n), parent, asts)
    decreases asts
  {
    hide Laid, LaidAll, Lower, SizeAll;
    if asts == [] {
    } else {
      var init, last := asts[..|asts| - 1], asts[|asts| - 1];
      var ts := LowerAll(NotionRendering(), init);
      hide SiblingIds, LowerAll, NotionRendering;
      assert asts == init + [last];
      LowerAllAppend(NotionRendering(), init, last);
      LaidAllSplits(ids, m, ts, Lower(NotionRendering(), last), n, parent);
      LaidAllShows(ids, m, init, n, parent);
      LaidShows(ids, m, last, n + SizeAll(ts), parent);
    }
  }

  lemma {:induction false} LaidColumnsShow(ids: Ids, m: Maps, columns: seq<Column>, n: nat, parent: string)
    requires LaidAll(ids, m, LowerColumns(NotionRendering(), columns), n, parent)
    ensures ShowsColumns(m, SiblingIds(ids, LowerColumns(NotionRendering(), columns), n), parent, columns)
    decreases columns
  {
    hide Laid, LaidAll, LowerAll, SizeAll, IsBlock, ShowsAll;
    if columns == [] {
    } else {
      var init, last := columns[..|columns| - 1], columns[|columns| - 1];
      var ts := LowerColumns(NotionRendering(), init);
      hide SiblingIds, LowerColumns, NotionRendering, ShowsColumns;
      assert columns == init + [last];
      LowerColumnsAppend(NotionRendering(), init, last);
      var tree := Tree(ColumnBlock, LowerAll(NotionRendering(), last.blocks));
      LaidAllSplits(ids, m, ts, tree, n, parent);
      LaidColumnsShow(ids, m, init, n, parent);
      LaidIsBlock(ids, m, tree, n + SizeAll(ts), parent);
      LaidAllShows(ids, m, last.blocks, n + SizeAll(ts) + 1, ids.make(n + SizeAll(ts)));
      OneMoreColumn(m, SiblingIds(ids, ts, n), parent, init, ids.make(n + SizeAll(ts)), last);
    }
  }

  lemma {:induction false} LaidRowsShow(ids: Ids, m: Maps, rows: seq<seq<string>>, width: nat, n: nat, parent: string)
    requires LaidAll(ids, m, LowerRows(NotionRendering(), rows, width), n, parent)
    ensures ShowsRows(m, SiblingIds(ids, LowerRows(NotionRendering(), rows, width), n), parent, rows, width)
    decreases rows
  {
    hide Laid, LaidAll, SizeAll, IsBlock, ShowsRow;
    if rows == [] {
    } else {
      var init, last := rows[..|rows| - 1], rows[|rows| - 1];
      var ts := LowerRows(NotionRendering(), init, width);
      hide SiblingIds, LowerRows, Cells, ShowsRows;
      assert rows == init + [last];
      LowerRowsAppend(NotionRendering(), init, last, width);
      var tree := Tree(RowBlock(Cells(last, width)), []);
      LaidAllSplits(ids, m, ts, tree, n, parent);
      LaidRowsShow(ids, m, init, width, n, parent);
      LaidIsBlock(ids, m, tree, n + SizeAll(ts), parent);
      CellsShowTheRow(last, width);
      OneMoreRow(m, SiblingIds(ids, ts, n), parent, init, width, ids.make(n + SizeAll(ts)), last);
    }
  }
}
