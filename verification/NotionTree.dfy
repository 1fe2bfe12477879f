/** The block AST of a page and the tree of Notion blocks it denotes. */
module NotionTree {
  import RichText

  type Text = seq<RichText.Part>

  datatype Kind =
    | Empty | Heading1 | Heading2 | Heading3 | Quote | Bullet | Numbered | Todo | Divider | Code | Equation | Toc
    | Image | FileRef | PageRef | DatabaseRef | Callout | Toggle | Synced | Columns | Table
    | TextKind | OtherKind

  /** A block of the source AST. An absent field is empty: the renderer reads both the same way. */
  datatype Ast = Ast(
    kind: Kind, text: string, content: string, url: string, caption: string, labelText: string, raw: string,
    icon: string, summary: string, language: string, color: string,
    checked: bool, headerRow: bool, headerColumn: bool,
    children: seq<Ast>, columns: seq<Column>, rows: seq<seq<string>>)

  datatype Column = Column(blocks: seq<Ast>)

  datatype Content =
    | TextBlock(blockType: string, text: Text, color: string)
    | TodoBlock(text: Text, color: string, checked: bool)
    | DividerBlock
    | CodeBlock(text: Text, language: string)
    | EquationBlock(expression: string)
    | TocBlock(color: string)
    | FileBlock(blockType: string, url: string, caption: Text)
    | CalloutBlock(text: Text, icon: string, color: string)
    | SyncedBlock
    | ColumnListBlock
    | ColumnBlock
    | TableBlock(width: nat, columnHeader: bool, rowHeader: bool)
    | RowBlock(cells: seq<Text>)

  datatype Tree = Tree(content: Content, children: seq<Tree>)

  function Or(s: string, fallback: string): string {
    if s == "" then fallback else s
  }

  function ApiColor(color: string): string {
    var value := Or(color, "default");
    if |value| >= 3 && value[|value| - 3..] == "_bg" then value[..|value| - 3] + "_background" else value
  }

  function TextOf(blockType: string, text: string, ast: Ast): Content {
    TextBlock(blockType, RichText.Parts(text), ApiColor(ast.color))
  }

  /** The text child a callout absorbs, if its first child is one. */
  predicate AbsorbsText(ast: Ast) {
    ast.children != [] && ast.children[0].kind == TextKind
  }

  function Width(rows: seq<seq<string>>): (w: nat)
    ensures w >= 1
    ensures forall r | r in rows :: |r| <= w
  {
    if rows == [] then 1
    else
      var rest := Width(rows[..|rows| - 1]);
      if rest < |rows[|rows| - 1]| then |rows[|rows| - 1]| else rest
  }

  function Cells(row: seq<string>, width: nat): seq<Text> {
    seq(width, i requires 0 <= i < width => RichText.Parts(if i < |row| then row[i] else ""))
  }

  function ContentOf(ast: Ast): Content {
    match ast.kind
    case Empty => TextOf("paragraph", "", ast)
    case Heading1 => TextOf("heading_1", ast.text, ast)
    case Heading2 => TextOf("heading_2", ast.text, ast)
    case Heading3 => TextOf("heading_3", ast.text, ast)
    case Quote => TextOf("quote", ast.text, ast)
    case Bullet => TextOf("bulleted_list_item", ast.text, ast)
    case Numbered => TextOf("numbered_list_item", ast.text, ast)
    case Todo => TodoBlock(RichText.Parts(ast.text), ApiColor(ast.color), ast.checked)
    case Divider => DividerBlock
    case Code => CodeBlock(RichText.Parts(ast.content), Or(ast.language, "plain text"))
    case Equation => EquationBlock(ast.content)
    case Toc => TocBlock(ApiColor(ast.color))
    case Image =>
      if ast.url == "" then TextOf("paragraph", Or(ast.caption, "Image unavailable"), ast)
      else FileBlock("image", ast.url, RichText.Parts(ast.caption))
    case FileRef =>
      if ast.url == "" then TextOf("paragraph", Or(ast.text, "File"), ast)
      else FileBlock("file", ast.url, RichText.Parts(Or(ast.text, "File")))
    case PageRef => Reference(Or(ast.text, "Page"), ast)
    case DatabaseRef => Reference(Or(ast.text, "Database"), ast)
    case Callout =>
      CalloutBlock(RichText.Parts(if AbsorbsText(ast) then ast.children[0].text else ""), Or(ast.icon, "\U{1F4A1}"), ApiColor(ast.color))
    case Toggle => TextOf("toggle", Or(ast.summary, "Toggle"), ast)
    case Synced => SyncedBlock
    case Columns => ColumnListBlock
    case Table => TableBlock(Width(ast.rows), ast.headerRow, ast.headerColumn)
    case TextKind => TextOf("paragraph", Or(ast.text, Or(ast.labelText, ast.raw)), ast)
    case OtherKind => TextOf("paragraph", Or(ast.text, Or(ast.labelText, ast.raw)), ast)
  }

  function Reference(caption: string, ast: Ast): Content {
    TextOf("paragraph", if ast.url == "" then caption else "[" + caption + "](" + ast.url + ")", ast)
  }

  /** What a single block or row carries, apart from where it sits in the tree. */
  datatype Rendering = Rendering(content: Ast -> Content, cells: (seq<string>, nat) -> seq<Text>) {
    ghost predicate Valid() {
      && (forall ast: Ast :: ast.kind != Table ==> !content(ast).TableBlock? && !content(ast).RowBlock?)
      && (forall row, width :: |cells(row, width)| == width)
    }
  }

  function NotionRendering(): Rendering {
    Rendering(ContentOf, Cells)
  }

  lemma OnlyTablesAreTables(ast: Ast)
    requires ast.kind != Table
    ensures !ContentOf(ast).TableBlock? && !ContentOf(ast).RowBlock?
  {
    hide RichText.Parts, Or, ApiColor, AbsorbsText, Width;
  }

  lemma NotionRenderingIsValid()
    ensures NotionRendering().Valid()
  {
    forall ast: Ast | ast.kind != Table ensures !ContentOf(ast).TableBlock? && !ContentOf(ast).RowBlock? {
      OnlyTablesAreTables(ast);
    }
    hide ContentOf, RichText.Parts;
    forall row, width ensures |NotionRendering().cells(row, width)| == width {
      assert |Cells(row, width)| == width;
    }
  }

  function TableContent(ast: Ast): Content {
    TableBlock(Width(ast.rows), ast.headerRow, ast.headerColumn)
  }

  /** The block tree an AST node denotes. */
  function Lower(r: Rendering, ast: Ast): Tree
    decreases ast
  {
    match ast.kind
    case Columns => Tree(ColumnListBlock, LowerColumns(r, ast.columns))
    case Table => Tree(TableContent(ast), LowerRows(r, ast.rows, Width(ast.rows)))
    case Callout => Tree(r.content(ast), LowerAll(r, if AbsorbsText(ast) then ast.children[1..] else ast.children))
    case _ => Tree(r.content(ast), LowerAll(r, ast.children))
  }

  function LowerAll(r: Rendering, asts: seq<Ast>): seq<Tree>
    decreases asts
  {
    if asts == [] then [] else LowerAll(r, asts[..|asts| - 1]) + [Lower(r, asts[|asts| - 1])]
  }

  function LowerColumns(r: Rendering, columns: seq<Column>): seq<Tree>
    decreases columns
  {
    if columns == [] then []
    else LowerColumns(r, columns[..|columns| - 1]) + [Tree(ColumnBlock, LowerAll(r, columns[|columns| - 1].blocks))]
  }

  function LowerRows(r: Rendering, rows: seq<seq<string>>, width: nat): seq<Tree> {
    if rows == [] then []
    else LowerRows(r, rows[..|rows| - 1], width) + [Tree(RowBlock(r.cells(rows[|rows| - 1], width)), [])]
  }

  lemma NoBlocks(r: Rendering)
    ensures LowerAll(r, []) == []
  {
  }

  lemma LowerAllAppend(r: Rendering, asts: seq<Ast>, ast: Ast)
    ensures LowerAll(r, asts + [ast]) == LowerAll(r, asts) + [Lower(r, ast)]
  {
    hide Lower;
    assert (asts + [ast])[..|asts|] == asts;
  }

  lemma NoColumns(r: Rendering)
    ensures LowerColumns(r, []) == []
  {
  }

  lemma LowerColumnsAppend(r: Rendering, columns: seq<Column>, column: Column)
    ensures LowerColumns(r, columns + [column]) == LowerColumns(r, columns) + [Tree(ColumnBlock, LowerAll(r, column.blocks))]
  {
    hide LowerAll;
    assert (columns + [column])[..|columns|] == columns;
  }

  lemma NoRows(r: Rendering, width: nat)
    ensures LowerRows(r, [], width) == []
  {
  }

  lemma LowerRowsAppend(r: Rendering, rows: seq<seq<string>>, row: seq<string>, width: nat)
    ensures LowerRows(r, rows + [row], width) == LowerRows(r, rows, width) + [Tree(RowBlock(r.cells(row, width)), [])]
  {
    assert (rows + [row])[..|rows|] == rows;
  }

  lemma LowerChildren(r: Rendering, ast: Ast)
    ensures Lower(r, ast).children == match ast.kind
            case Columns => LowerColumns(r, ast.columns)
            case Table => LowerRows(r, ast.rows, Width(ast.rows))
            case Callout => LowerAll(r, if AbsorbsText(ast) then ast.children[1..] else ast.children)
            case _ => LowerAll(r, ast.children)
  {
    hide LowerAll, LowerColumns, LowerRows, Width;
  }

  // ---------------------------------------------------------------- tables

  /** Every table in the tree has only rows below it, each as wide as the table says and a leaf. */
  ghost predicate Rectangular(t: Tree) {
    && (t.content.RowBlock? ==> t.children == [])
    && (t.content.TableBlock? ==>
          forall row | row in t.children :: row.content.RowBlock? && |row.content.cells| == t.content.width)
    && forall child | child in t.children :: Rectangular(child)
  }

  lemma {:induction false} RowsAreRectangular(r: Rendering, rows: seq<seq<string>>, width: nat)
    requires r.Valid()
    ensures forall t | t in LowerRows(r, rows, width) ::
              t.content.RowBlock? && |t.content.cells| == width && Rectangular(t)
  {
    if rows != [] {
      RowsAreRectangular(r, rows[..|rows| - 1], width);
    }
  }

  /** Lowering yields rectangular tables only. */
  lemma {:induction false} LowerIsRectangular(r: Rendering, ast: Ast)
    requires r.Valid()
    ensures Rectangular(Lower(r, ast))
    decreases ast
  {
    match ast.kind
    case Columns => ColumnsAreRectangular(r, ast.columns);
    case Table => RowsAreRectangular(r, ast.rows, Width(ast.rows));
    case Callout => LowerAllIsRectangular(r, if AbsorbsText(ast) then ast.children[1..] else ast.children);
    case _ => LowerAllIsRectangular(r, ast.children);
  }

  lemma {:induction false} LowerAllIsRectangular(r: Rendering, asts: seq<Ast>)
    requires r.Valid()
    ensures forall t | t in LowerAll(r, asts) :: Rectangular(t)
    decreases asts
  {
    if asts != [] {
      LowerAllIsRectangular(r, asts[..|asts| - 1]);
      LowerIsRectangular(r, asts[|asts| - 1]);
    }
  }

  lemma {:induction false} ColumnsAreRectangular(r: Rendering, columns: seq<Column>)
    requires r.Valid()
    ensures forall t | t in LowerColumns(r, columns) :: Rectangular(t)
    decreases columns
  {
    if columns != [] {
      ColumnsAreRectangular(r, columns[..|columns| - 1]);
      LowerAllIsRectangular(r, columns[|columns| - 1].blocks);
    }
  }
}
