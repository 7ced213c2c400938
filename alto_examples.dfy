/** A worked page with a TextBlock inside a TextBlock, where raw text and
    MiniOCR list the words in different orders. */
module AltoExamples {
  import opened Xml
  import opened MiniOcr
  import opened Alto
  import opened AltoProperties

  /** An ALTO element without attributes. */
  function El(local: string, kids: seq<Node>): Node
  {
    Element(Name(AltoNs, local), map[], kids)
  }

  /** A String element with only a CONTENT attribute. */
  function Str(content: string): Node
  {
    Element(Name(AltoNs, "String"), map["CONTENT" := content], [])
  }

  /** A TextLine holding one String. */
  function LineOf(content: string): Node
  {
    El("TextLine", [Str(content)])
  }

  /** A page whose only PrintSpace holds `kids`. */
  function PageOf(kids: seq<Node>): Node
  {
    El("alto", [El("Layout", [El("Page", [El("PrintSpace", kids)])])])
  }

  lemma StepOne(n: Node, local: string)
    ensures Step([n], local) == AltoChildren(ChildrenOf(n), local)
    ensures AltoChildren([n], local) == if IsAlto(n, local) then [n] else []
  {
    assert [n][..0] == [];
  }

  lemma PrintSpaceOf(kids: seq<Node>)
    ensures PrintSpaces(PageOf(kids)) == [El("PrintSpace", kids)]
  {
    var ps := El("PrintSpace", kids);
    var page := El("Page", [ps]);
    var layout := El("Layout", [page]);
    assert Step([PageOf(kids)], "Layout") == [layout] by {
      StepOne(PageOf(kids), "Layout");
      StepOne(layout, "Layout");
    }
    assert Step([layout], "Page") == [page] by {
      StepOne(layout, "Page");
      StepOne(page, "Page");
    }
    assert Step([page], "PrintSpace") == [ps] by {
      StepOne(page, "PrintSpace");
      StepOne(ps, "PrintSpace");
    }
  }

  /* Evaluation steps on one- and two-element sequences. */

  lemma WalkTwo(x: Node, y: Node, a: Ancestry)
    ensures WordsInSeq([x], a) == WordsIn(x, a)
    ensures WordsInSeq([x, y], a) == WordsIn(x, a) + WordsIn(y, a)
  {
    assert [x][..0] == [] && [x, y][..1] == [x];
  }

  lemma BlocksTwo(x: Node, y: Node)
    ensures BlocksInSeq([x]) == BlocksIn(x)
    ensures BlocksInSeq([x, y]) == BlocksIn(x) + BlocksIn(y)
    ensures BlocksUnder([x]) == BlocksInSeq(ChildrenOf(x))
    ensures WordsUnder([x]) == WordsInSeq(ChildrenOf(x), Top)
  {
    assert [x][..0] == [] && [x, y][..1] == [x];
  }

  lemma KeyedTwo(x: Node, y: Node, key: string)
    ensures ChildrenWithKey([x], key) == if HasKey(x, key) then [x] else []
    ensures ChildrenWithKey([x, y], key) == ChildrenWithKey([x], key) + (if HasKey(y, key) then [y] else [])
  {
    assert [x][..0] == [] && [x, y][..1] == [x];
  }

  /** A String child of a TextLine inside a block yields its CONTENT. */
  lemma StringWalk(c: string, a: Ancestry)
    requires a.parentLine && a.grandBlock
    ensures WordsIn(Str(c), a) == [c]
  {
  }

  /** A one-word TextLine directly inside a block yields its word. */
  lemma LineWalk(c: string, a: Ancestry)
    requires a.parentBlock
    ensures WordsIn(LineOf(c), a) == [c]
  {
    var inner := ChildAncestry(LineOf(c), a);
    WalkTwo(Str(c), Str(c), inner);
    StringWalk(c, inner);
  }

  lemma LineFacts(c: string)
    ensures BlocksIn(LineOf(c)) == []
    ensures WordNodes(LineOf(c)) == [Str(c)]
  {
    BlocksTwo(Str(c), Str(c));
    KeyedTwo(Str(c), Str(c), "String");
  }

  /** The words of a one-line run. */
  lemma ContentsOne(line: Node)
    requires |WordNodes(line)| == 1
    ensures LinesContents([line]) == [Attr(WordNodes(line)[0], "CONTENT")]
  {
    var ws := WordNodes(line);
    GatherOne(line, ContentOfLine);
    assert ws == [ws[0]];
    GatherOne(ws[0], ContentOfWord);
  }

  /** The nested page: block `outer` holds block `inner` (with the word `a`)
      and then a line with the word `b`. */
  function Inner(a: string): Node { El("TextBlock", [LineOf(a)]) }
  function Outer(a: string, b: string): Node { El("TextBlock", [Inner(a), LineOf(b)]) }

  lemma InnerWords(a: string, b: string)
    ensures WordsIn(Inner(a), ChildAncestry(Outer(a, b), Top)) == [a]
  {
    var inInner := ChildAncestry(Inner(a), ChildAncestry(Outer(a, b), Top));
    WalkTwo(LineOf(a), LineOf(a), inInner);
    LineWalk(a, inInner);
  }

  lemma OuterWords(a: string, b: string)
    ensures WordsIn(Outer(a, b), Top) == [a, b]
  {
    var inOuter := ChildAncestry(Outer(a, b), Top);
    WalkTwo(Inner(a), LineOf(b), inOuter);
    InnerWords(a, b);
    LineWalk(b, inOuter);
  }

  lemma NestedRawWords(a: string, b: string)
    ensures RawWords(PageOf([Outer(a, b)])) == [a, b]
  {
    var ps := El("PrintSpace", [Outer(a, b)]);
    PrintSpaceOf([Outer(a, b)]);
    BlocksTwo(ps, ps);
    WalkTwo(Outer(a, b), Outer(a, b), Top);
    OuterWords(a, b);
  }

  lemma InnerBlocks(a: string)
    ensures BlocksIn(Inner(a)) == [Inner(a)]
  {
    LineFacts(a);
    BlocksTwo(LineOf(a), LineOf(a));
  }

  lemma OuterKidBlocks(a: string, b: string)
    ensures BlocksInSeq([Inner(a), LineOf(b)]) == [Inner(a)]
  {
    LineFacts(b);
    InnerBlocks(a);
    BlocksTwo(Inner(a), LineOf(b));
  }

  lemma NestedBlocksIn(a: string, b: string)
    ensures BlocksIn(Outer(a, b)) == [Outer(a, b), Inner(a)]
  {
    assert BlocksIn(Outer(a, b)) == [Outer(a, b)] + BlocksInSeq([Inner(a), LineOf(b)]);
    OuterKidBlocks(a, b);
  }

  lemma NestedBlocks(a: string, b: string)
    ensures Blocks(PageOf([Outer(a, b)])) == [Outer(a, b), Inner(a)]
  {
    var ps := El("PrintSpace", [Outer(a, b)]);
    PrintSpaceOf([Outer(a, b)]);
    BlocksTwo(ps, ps);
    BlocksTwo(Outer(a, b), Outer(a, b));
    NestedBlocksIn(a, b);
  }

  lemma LineContents(c: string)
    ensures LinesContents([LineOf(c)]) == [c]
  {
    LineFacts(c);
    ContentsOne(LineOf(c));
  }

  lemma NestedLines(a: string, b: string)
    ensures TextLines(Inner(a)) == [LineOf(a)]
    ensures TextLines(Outer(a, b)) == [LineOf(b)]
  {
    KeyedTwo(LineOf(a), LineOf(a), "TextLine");
    KeyedTwo(Inner(a), LineOf(b), "TextLine");
  }

  lemma NestedBlockContents(a: string, b: string)
    ensures BlockContents([Outer(a, b), Inner(a)]) == [b, a]
  {
    NestedLines(a, b);
    LineContents(a);
    LineContents(b);
    assert [Outer(a, b), Inner(a)] == [Outer(a, b)] + [Inner(a)];
    GatherAppend([Outer(a, b)], [Inner(a)], ContentOfBlock);
    GatherOne(Outer(a, b), ContentOfBlock);
    GatherOne(Inner(a), ContentOfBlock);
  }

  lemma SpacedTwo(x: string, y: string)
    ensures Spaced([x, y]) == [x + " ", y + " "]
  {
  }

  /** The raw text of the nested page reads `a` then `b` (document order),
      while its MiniOCR reads `b` then `a` (the outer block first, then the
      block inside it): without the plain-page hypothesis the two operations
      disagree on the order of the words. */
  lemma NestedBlocksReorderWords(a: string, b: string)
    ensures RawWords(PageOf([Outer(a, b)])) == [a, b]
    ensures Blocks(PageOf([Outer(a, b)])) == [Outer(a, b), Inner(a)]
    ensures DocWords(MiniOcrDoc(Blocks(PageOf([Outer(a, b)]))).blocks) == [b + " ", a + " "]
    ensures a != b ==> DocWords(MiniOcrDoc(Blocks(PageOf([Outer(a, b)]))).blocks)
                       != Spaced(RawWords(PageOf([Outer(a, b)])))
  {
    NestedRawWords(a, b);
    NestedBlocks(a, b);
    var blocks := [Outer(a, b), Inner(a)];
    var words := DocWords(MiniOcrDoc(blocks).blocks);
    assert words == Spaced(BlockContents(blocks)) by {
      DocWordsOf(blocks);
    }
    NestedBlockContents(a, b);
    SpacedTwo(b, a);
    SpacedTwo(a, b);
    if a != b {
      assert (a + " ")[..|a|] == a && (b + " ")[..|b|] == b;
    }
  }
}
