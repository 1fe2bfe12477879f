/** Lowering a page's block AST into flat maps keyed by synthetic ids. */
module NotionModel {
  import opened NotionTree

  datatype Block = Block(id: string, content: Content, hasChildren: bool)

  /** The id factory, as a function of its counter; `number` reads the counter back off an id. */
  datatype Ids = Ids(make: nat -> string, number: string -> nat) {
    ghost predicate Injective() {
      forall n: nat :: number(make(n)) == n
    }

    /** `id` is none of the ids numbered from `lo` up to `hi`. */
    predicate Outside(id: string, lo: nat, hi: nat) {
      make(number(id)) != id || number(id) < lo || hi <= number(id)
    }
  }

  /** The three maps the renderer hands on. */
  datatype Maps = Maps(blocks: map<string, Block>, children: map<string, seq<string>>, parents: map<string, string>)

  function ChildrenOf(m: Maps, id: string): seq<string> {
    if id in m.children then m.children[id] else []
  }

  /** `addBlock`: a block with no children yet, as the last child of `parent`. */
  function Insert(m: Maps, id: string, content: Content, parent: string): Maps {
    var listed := m.children[parent := ChildrenOf(m, parent) + [id]];
    Maps(m.blocks[id := Block(id, content, false)],
         if id in listed then listed else listed[id := []],
         m.parents[id := parent])
  }

  /** Sets the `has_children` flag of `id` from its children list. */
  function Mark(m: Maps, id: string): Maps {
    if id in m.blocks then m.(blocks := m.blocks[id := m.blocks[id].(hasChildren := ChildrenOf(m, id) != [])]) else m
  }

  function Size(t: Tree): nat
    decreases t
  {
    1 + SizeAll(t.children)
  }

  function SizeAll(ts: seq<Tree>): nat
    decreases ts
  {
    if ts == [] then 0 else SizeAll(ts[..|ts| - 1]) + Size(ts[|ts| - 1])
  }

  /** The maps after adding the tree `t`, numbered in preorder from `n`, as the last child of `parent`. */
  function AddTree(ids: Ids, m: Maps, t: Tree, n: nat, parent: string): (m': Maps)
    ensures m.blocks.Keys <= m'.blocks.Keys && m.children.Keys <= m'.children.Keys && ids.make(n) in m'.blocks
    decreases t
  {
    var id := ids.make(n);
    var m' := AddTrees(ids, Insert(m, id, t.content, parent), t.children, n + 1, id);
    if t.content.RowBlock? then m' else Mark(m', id)
  }

  function AddTrees(ids: Ids, m: Maps, ts: seq<Tree>, n: nat, parent: string): (m': Maps)
    ensures m.blocks.Keys <= m'.blocks.Keys && m.children.Keys <= m'.children.Keys
    decreases ts
  {
    if ts == [] then m
    else AddTree(ids, AddTrees(ids, m, ts[..|ts| - 1], n, parent), ts[|ts| - 1], n + SizeAll(ts[..|ts| - 1]), parent)
  }

  lemma NoTrees(ids: Ids, m: Maps, n: nat, parent: string)
    ensures AddTrees(ids, m, [], n, parent) == m && SizeAll([]) == 0
  {
  }

  lemma AddTreesAppend(ids: Ids, m: Maps, ts: seq<Tree>, t: Tree, n: nat, parent: string)
    ensures AddTrees(ids, m, ts + [t], n, parent)
         == AddTree(ids, AddTrees(ids, m, ts, n, parent), t, n + SizeAll(ts), parent)
    ensures SizeAll(ts + [t]) == SizeAll(ts) + Size(t)
  {
    hide AddTree, Size;
    assert (ts + [t])[..|ts|] == ts;
  }

  lemma AddTreeSteps(ids: Ids, m: Maps, t: Tree, n: nat, parent: string)
    ensures AddTree(ids, m, t, n, parent)
         == var kids := AddTrees(ids, Insert(m, ids.make(n), t.content, parent), t.children, n + 1, ids.make(n));
            if t.content.RowBlock? then kids else Mark(kids, ids.make(n))
    ensures Size(t) == 1 + SizeAll(t.children)
  {
  }

  /** What one AST node becomes before its children are added. */
  function BlockContent(r: Rendering, ast: Ast): Content {
    match ast.kind
    case Columns => ColumnListBlock
    case Table => TableContent(ast)
    case _ => r.content(ast)
  }

  /** The mutable maps and the id counter the renderer closes over. */
  class Lowering {
    const ids: Ids
    const render: Rendering
    var maps: Maps
    var nextValue: nat

    constructor (ids: Ids, render: Rendering, pageId: string)
      ensures this.ids == ids && this.render == render
      ensures nextValue == 1 && maps == Maps(map[], map[pageId := []], map[])
    {
      this.ids, this.render := ids, render;
      maps, nextValue := Maps(map[], map[pageId := []], map[]), 1;
    }

    method NextId() returns (id: string)
      modifies this`nextValue
      ensures id == ids.make(old(nextValue)) && nextValue == old(nextValue) + 1
    {
      id := ids.make(nextValue);
      nextValue := nextValue + 1;
    }

    method EnsureChildren(id: string)
      modifies this`maps
      ensures maps == old(maps).(children := if id in old(maps.children) then old(maps.children) else old(maps.children)[id := []])
    {
      if id !in maps.children {
        maps := maps.(children := maps.children[id := []]);
      }
    }

    method AddBlock(id: string, content: Content, parentId: string)
      modifies this`maps
      ensures maps == Insert(old(maps), id, content, parentId)
    {
      maps := maps.(blocks := maps.blocks[id := Block(id, content, false)], parents := maps.parents[id := parentId]);
      EnsureChildren(parentId);
      maps := maps.(children := maps.children[parentId := maps.children[parentId] + [id]]);
      EnsureChildren(id);
    }

    method SetHasChildren(id: string)
      modifies this`maps
      ensures maps == Mark(old(maps), id)
    {
      var children := ChildrenOf(maps, id);
      if id in maps.blocks {
        maps := maps.(blocks := maps.blocks[id := maps.blocks[id].(hasChildren := |children| > 0)]);
      }
    }

    /** Adds the subtree an AST node denotes. */
    method AddAst(ast: Ast, parentId: string) returns (id: string)
      requires render.Valid()
      modifies this
      ensures id == ids.make(old(nextValue)) && nextValue == old(nextValue) + Size(Lower(render, ast))
      ensures maps == AddTree(ids, old(maps), Lower(render, ast), old(nextValue), parentId)
      decreases ast, 1
    {
      hide AddTrees, SizeAll, Insert, Mark;
      id := NextId();
      AddBlock(id, BlockContent(render, ast), parentId);
      AddChildren(ast, id);
      SetHasChildren(id);
      AddTreeSteps(ids, old(maps), Lower(render, ast), old(nextValue), parentId);
    }

    method AddChildren(ast: Ast, id: string)
      requires render.Valid()
      modifies this
      ensures nextValue == old(nextValue) + SizeAll(Lower(render, ast).children)
      ensures maps == AddTrees(ids, old(maps), Lower(render, ast).children, old(nextValue), id)
      decreases ast, 0
    {
      LowerChildren(render, ast);
      hide Lower, LowerAll, LowerColumns, LowerRows, AddTrees, AddTree, SizeAll, Size, Insert, Mark, Width;
      match ast.kind {
        case Columns => AddColumns(ast.columns, id);
        case Table => AddRows(ast.rows, Width(ast.rows), id);
        case Callout =>
          var children := if AbsorbsText(ast) then ast.children[1..] else ast.children;
          AddAll(children, id);
        case _ => AddAll(ast.children, id);
      }
    }

    method AddAll(asts: seq<Ast>, parentId: string)
      requires render.Valid()
      modifies this
      ensures nextValue == old(nextValue) + SizeAll(LowerAll(render, asts))
      ensures maps == AddTrees(ids, old(maps), LowerAll(render, asts), old(nextValue), parentId)
      decreases asts
    {
      hide Lower, Size, AddTree, AddTrees, SizeAll, LowerAll;
      ghost var done: seq<Tree> := [];
      NoBlocks(render);
      NoTrees(ids, maps, nextValue, parentId);
      assert asts[..0] == [];
      for i := 0 to |asts|
        invariant done == LowerAll(render, asts[..i])
        invariant nextValue == old(nextValue) + SizeAll(done)
        invariant maps == AddTrees(ids, old(maps), done, old(nextValue), parentId)
      {
        var _ := AddAst(asts[i], parentId);
        LowerAllAppend(render, asts[..i], asts[i]);
        assert asts[..i + 1] == asts[..i] + [asts[i]];
        AddTreesAppend(ids, old(maps), done, Lower(render, asts[i]), old(nextValue), parentId);
        done := done + [Lower(render, asts[i])];
      }
      assert asts[..|asts|] == asts;
    }

    method AddColumn(column: Column, listId: string)
      requires render.Valid()
      modifies this
      ensures nextValue == old(nextValue) + Size(Tree(ColumnBlock, LowerAll(render, column.blocks)))
      ensures maps == AddTree(ids, old(maps), Tree(ColumnBlock, LowerAll(render, column.blocks)), old(nextValue), listId)
      decreases column
    {
      hide AddTrees, AddTree, SizeAll, Insert, Mark, LowerAll;
      var columnId := NextId();
      AddBlock(columnId, ColumnBlock, listId);
      AddAll(column.blocks, columnId);
      SetHasChildren(columnId);
      AddTreeSteps(ids, old(maps), Tree(ColumnBlock, LowerAll(render, column.blocks)), old(nextValue), listId);
    }

    method AddColumns(columns: seq<Column>, listId: string)
      requires render.Valid()
      modifies this
      ensures nextValue == old(nextValue) + SizeAll(LowerColumns(render, columns))
      ensures maps == AddTrees(ids, old(maps), LowerColumns(render, columns), old(nextValue), listId)
      decreases columns
    {
      hide Lower, Size, AddTree, AddTrees, SizeAll, LowerAll, LowerColumns;
      ghost var done: seq<Tree> := [];
      NoColumns(render);
      NoTrees(ids, maps, nextValue, listId);
      assert columns[..0] == [];
      for i := 0 to |columns|
        invariant done == LowerColumns(render, columns[..i])
        invariant nextValue == old(nextValue) + SizeAll(done)
        invariant maps == AddTrees(ids, old(maps), done, old(nextValue), listId)
      {
        AddColumn(columns[i], listId);
        LowerColumnsAppend(render, columns[..i], columns[i]);
        assert columns[..i + 1] == columns[..i] + [columns[i]];
        AddTreesAppend(ids, old(maps), done, Tree(ColumnBlock, LowerAll(render, columns[i].blocks)), old(nextValue), listId);
        done := done + [Tree(ColumnBlock, LowerAll(render, columns[i].blocks))];
      }
      assert columns[..|columns|] == columns;
    }

    method AddRow(row: seq<string>, width: nat, tableId: string)
      modifies this
      ensures nextValue == old(nextValue) + Size(Tree(RowBlock(render.cells(row, width)), []))
      ensures maps == AddTree(ids, old(maps), Tree(RowBlock(render.cells(row, width)), []), old(nextValue), tableId)
    {
      var rowId := NextId();
      AddBlock(rowId, RowBlock(render.cells(row, width)), tableId);
    }

    method AddRows(rows: seq<seq<string>>, width: nat, tableId: string)
      modifies this
      ensures nextValue == old(nextValue) + SizeAll(LowerRows(render, rows, width))
      ensures maps == AddTrees(ids, old(maps), LowerRows(render, rows, width), old(nextValue), tableId)
    {
      hide Lower, Size, AddTree, AddTrees, SizeAll, LowerRows;
      ghost var done: seq<Tree> := [];
      NoRows(render, width);
      NoTrees(ids, maps, nextValue, tableId);
      assert rows[..0] == [];
      for i := 0 to |rows|
        invariant done == LowerRows(render, rows[..i], width)
        invariant nextValue == old(nextValue) + SizeAll(done)
        invariant maps == AddTrees(ids, old(maps), done, old(nextValue), tableId)
      {
        AddRow(rows[i], width, tableId);
        LowerRowsAppend(render, rows[..i], rows[i], width);
        assert rows[..i + 1] == rows[..i] + [rows[i]];
        AddTreesAppend(ids, old(maps), done, Tree(RowBlock(render.cells(rows[i], width)), []), old(nextValue), tableId);
        done := done + [Tree(RowBlock(render.cells(rows[i], width)), [])];
      }
      assert rows[..|rows|] == rows;
    }
  }
}
