/** The renderer's id factory: a fixed UUID prefix and the counter in twelve hexadecimal digits. */
module SyntheticIds {
  import opened Numerals
  import opened NotionTree
  import opened NotionModel
  import opened NotionForest
  import opened NotionPage

  const PREFIX: string := "00000000-0000-4000-8000-"

  function Make(n: nat): string {
    PREFIX + PadStart(Print(n, 16), 12)
  }

  function Number(id: string): nat {
    if |id| < |PREFIX| then 0 else Read(id[|PREFIX|..], 16)
  }

  function Factory(): Ids {
    Ids(Make, Number)
  }

  lemma NumberOfMake(n: nat)
    ensures Number(Make(n)) == n
  {
    hide PREFIX;
    var digits := PadStart(Print(n, 16), 12);
    assert Make(n)[|PREFIX|..] == digits;
    ReadPadded(Print(n, 16), 12, 16);
    ReadPrint(n, 16);
  }

  lemma FactoryIsInjective()
    ensures Factory().Injective()
  {
    forall n: nat ensures Number(Make(n)) == n {
      NumberOfMake(n);
    }
  }

  /** The renderer as it is configured: a page reads back exactly when its own id is none of the first ids of the
      factory, as many as the page has blocks. */
  lemma RenderedPageReadsBack(asts: seq<Ast>, pageId: string)
    ensures var ts := LowerAll(NotionRendering(), asts);
            var m := Lowered(Factory(), ts, pageId);
            ReadAll(m, ChildrenOf(m, pageId), |m.blocks|) == ts <==>
            forall k: nat | 1 <= k <= SizeAll(ts) :: Make(k) != pageId
  {
    hide LowerAll, Lowered, ReadAll, SizeAll, NotionRendering, Make;
    FactoryIsInjective();
    NotionRenderingIsValid();
    LoweringReadsBack(Factory(), NotionRendering(), asts, pageId);
    var ts := LowerAll(NotionRendering(), asts);
    if forall k: nat | 1 <= k <= SizeAll(ts) :: Make(k) != pageId {
      assert forall k: nat | 1 <= k < 1 + SizeAll(ts) :: Factory().make(k) == Make(k);
    } else {
      var k: nat :| 1 <= k <= SizeAll(ts) && Make(k) == pageId;
      assert Factory().make(k) == pageId;
    }
  }
}
