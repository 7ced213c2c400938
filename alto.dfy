/** The ALTO 2.x fulltext format (`Classes/Format/Alto.php`): raw text and
    MiniOCR extracted from a parsed ALTO page.

    The XPath queries of the source are written out as recursive selections
    over the tree.  A name test `alto:X` matches an element in the ALTO 2.x
    namespace with local name X; the `children()` loops of the MiniOCR
    extraction compare the local name only, as the source's `$key` does. */
module Alto {
  import opened Wrappers
  import opened Xml
  import opened Strings
  import Entities
  import opened MiniOcr

  /* ---------------------------------------------------------------------
     XPath selection: ./alto:Layout/alto:Page/alto:PrintSpace//alto:TextBlock
     --------------------------------------------------------------------- */

  /** The children of one element that pass the name test `alto:local`. */
  function AltoChildren(kids: seq<Node>, local: string): seq<Node>
  {
    if kids == [] then []
    else
      var last := kids[|kids| - 1];
      AltoChildren(kids[..|kids| - 1], local) + (if IsAlto(last, local) then [last] else [])
  }

  /** The location step `/alto:local` applied to a node-set in document order. */
  function Step(ns: seq<Node>, local: string): seq<Node>
  {
    if ns == [] then []
    else Step(ns[..|ns| - 1], local) + AltoChildren(ChildrenOf(ns[|ns| - 1]), local)
  }

  /** `./alto:Layout/alto:Page/alto:PrintSpace` from the document element. */
  function PrintSpaces(xml: Node): seq<Node>
  {
    Step(Step(Step([xml], "Layout"), "Page"), "PrintSpace")
  }

  /** The TextBlock elements of a subtree, the subtree's root included, in
      document order. */
  function BlocksIn(n: Node): seq<Node>
    decreases n, 1
  {
    match n
    case Text(_) => []
    case Element(_, _, kids) => (if IsAlto(n, "TextBlock") then [n] else []) + BlocksInSeq(kids)
  }

  function BlocksInSeq(kids: seq<Node>): seq<Node>
    decreases kids, 0
  {
    if kids == [] then []
    else BlocksInSeq(kids[..|kids| - 1]) + BlocksIn(kids[|kids| - 1])
  }

  /** `ps//alto:TextBlock` for a node-set `ps` of PrintSpace elements. */
  function BlocksUnder(ps: seq<Node>): seq<Node>
  {
    if ps == [] then []
    else BlocksUnder(ps[..|ps| - 1]) + BlocksInSeq(ChildrenOf(ps[|ps| - 1]))
  }

  /** The `$blocks` of `getTextAsMiniOcr`: every TextBlock below a PrintSpace,
      at any depth, in document order. */
  function Blocks(xml: Node): seq<Node>
  {
    BlocksUnder(PrintSpaces(xml))
  }

  /* ---------------------------------------------------------------------
     Raw text: ./alto:Layout/alto:Page/alto:PrintSpace//alto:TextBlock
               /alto:TextLine/alto:String/@CONTENT
     --------------------------------------------------------------------- */

  /** What the walk knows about a node's ancestors: whether its parent is a
      TextLine or a TextBlock, and whether its grandparent is a TextBlock. */
  datatype Ancestry = Ancestry(parentLine: bool, parentBlock: bool, grandBlock: bool)

  /** Below a PrintSpace, the ancestry of the PrintSpace's own children. */
  const Top: Ancestry := Ancestry(false, false, false)

  /** The ancestry of the children of `n`, given the ancestry of `n`. */
  function ChildAncestry(n: Node, a: Ancestry): Ancestry
  {
    Ancestry(IsAlto(n, "TextLine"), IsAlto(n, "TextBlock"), a.parentBlock)
  }

  /** The CONTENT values selected in the subtree `n`, in document order: a
      String element counts when its parent is a TextLine, its grandparent a
      TextBlock, and it carries a CONTENT attribute. */
  function WordsIn(n: Node, a: Ancestry): seq<string>
    decreases n, 1
  {
    match n
    case Text(_) => []
    case Element(_, attrs, kids) =>
      (if a.parentLine && a.grandBlock && IsAlto(n, "String") && "CONTENT" in attrs
       then [attrs["CONTENT"]] else [])
      + WordsInSeq(kids, ChildAncestry(n, a))
  }

  function WordsInSeq(kids: seq<Node>, a: Ancestry): seq<string>
    decreases kids, 0
  {
    if kids == [] then []
    else WordsInSeq(kids[..|kids| - 1], a) + WordsIn(kids[|kids| - 1], a)
  }

  function WordsUnder(ps: seq<Node>): seq<string>
  {
    if ps == [] then []
    else WordsUnder(ps[..|ps| - 1]) + WordsInSeq(ChildrenOf(ps[|ps| - 1]), Top)
  }

  /** The `$words` of `getRawText`. */
  function RawWords(xml: Node): seq<string>
  {
    WordsUnder(PrintSpaces(xml))
  }

  /** `getRawText`: the selected words joined by single spaces, or "" when
      there are none: each word stands unescaped at its start offset, with a
      space before each word but the first. */
  function GetRawText(xml: Node): (r: string)
    ensures RawWords(xml) == [] ==> r == ""
    ensures RawWords(xml) != [] ==> |r| == TotalLength(RawWords(xml)) + |RawWords(xml)| - 1
    ensures (forall i :: 0 <= i < |RawWords(xml)| ==> ' ' !in RawWords(xml)[i]) && RawWords(xml) != []
            ==> Split(r, ' ') == RawWords(xml)
    ensures forall i :: 0 <= i < |RawWords(xml)| ==>
              OccursAt(r, RawWords(xml)[i], WordStart(RawWords(xml), i))
    ensures forall i :: 0 < i < |RawWords(xml)| ==>
              OccursAt(r, " ", WordStart(RawWords(xml), i) - 1)
  {
    var words := RawWords(xml);
    JoinLayout(words, ' ');
    if words == [] then ""
    else
      if forall i :: 0 <= i < |words| ==> ' ' !in words[i] then
        SplitJoin(words, ' ');
        Join(words, ' ')
      else Join(words, ' ')
  }

  /* ---------------------------------------------------------------------
     MiniOCR
     --------------------------------------------------------------------- */

  /** The children `children()` yields under the key `key`, in order. */
  function ChildrenWithKey(kids: seq<Node>, key: string): seq<Node>
  {
    if kids == [] then []
    else
      var last := kids[|kids| - 1];
      ChildrenWithKey(kids[..|kids| - 1], key) + (if HasKey(last, key) then [last] else [])
  }

  /** The direct TextLine children of a block. */
  function TextLines(block: Node): seq<Node>
  {
    ChildrenWithKey(ChildrenOf(block), "TextLine")
  }

  /** The direct String children of a line. */
  function WordNodes(line: Node): seq<Node>
  {
    ChildrenWithKey(ChildrenOf(line), "String")
  }

  /** `getWord`: the escaped CONTENT and one trailing space; it is
      well-formed character data, and resolving its entity references gives
      back CONTENT and the space. */
  function GetWord(word: Node): (r: string)
    ensures Entities.Decode(r) == Attr(word, "CONTENT") + " "
    ensures Entities.Escaped(r)
    ensures '<' !in r && '"' !in r
    ensures |r| > 0 && r[|r| - 1] == ' '
  {
    var content := Attr(word, "CONTENT");
    Entities.DecodeEscape(content, Entities.HtmlSpecial, " ");
    Entities.EscapedAppend(Entities.HtmlSpecialChars(content), " ");
    Entities.HtmlSpecialChars(content) + " "
  }

  /** `getCoordinates`: HPOS, VPOS, WIDTH and HEIGHT as written, joined by
      single spaces; splitting it at the spaces gives the four back. */
  function GetCoordinates(word: Node): (r: string)
    ensures var parts := [Attr(word, "HPOS"), Attr(word, "VPOS"), Attr(word, "WIDTH"), Attr(word, "HEIGHT")];
      (forall i :: 0 <= i < 4 ==> ' ' !in parts[i]) ==> Split(r, ' ') == parts
  {
    var parts := [Attr(word, "HPOS"), Attr(word, "VPOS"), Attr(word, "WIDTH"), Attr(word, "HEIGHT")];
    var r := parts[0] + " " + parts[1] + " " + parts[2] + " " + parts[3];
    assert r == Join(parts, ' ') by {
      assert Join(parts[2..], ' ') == parts[2] + " " + parts[3] by {
        assert parts[2..][1..] == [parts[3]];
      }
      assert Join(parts[1..], ' ') == parts[1] + " " + Join(parts[2..], ' ') by {
        assert parts[1..][1..] == parts[2..];
      }
    }
    if forall i :: 0 <= i < 4 ==> ' ' !in parts[i] then
      SplitJoin(parts, ' ');
      r
    else r
  }

  /** The `w` element for a String element. */
  function WordElement(word: Node): Word
  {
    W(Attr(word, "CONTENT") + " ", GetCoordinates(word))
  }

  function WordElements(words: seq<Node>): seq<Word>
  {
    if words == [] then []
    else WordElements(words[..|words| - 1]) + [WordElement(words[|words| - 1])]
  }

  /** The `l` element for a TextLine: one `w` per direct String child. */
  function LineElement(line: Node): Line
  {
    L(WordElements(WordNodes(line)))
  }

  function LineElements(lines: seq<Node>): seq<Line>
  {
    if lines == [] then []
    else LineElements(lines[..|lines| - 1]) + [LineElement(lines[|lines| - 1])]
  }

  /** The `b` element for a TextBlock: one `l` per direct TextLine child. */
  function BlockElement(block: Node): Block
  {
    B(LineElements(TextLines(block)))
  }

  function BlockElements(blocks: seq<Node>): seq<Block>
  {
    if blocks == [] then []
    else BlockElements(blocks[..|blocks| - 1]) + [BlockElement(blocks[|blocks| - 1])]
  }

  lemma KeyedStep(kids: seq<Node>, j: nat, key: string)
    requires j < |kids|
    ensures ChildrenWithKey(kids[..j + 1], key)
            == ChildrenWithKey(kids[..j], key) + (if HasKey(kids[j], key) then [kids[j]] else [])
  {
    assert kids[..j + 1][..j] == kids[..j];
  }

  lemma WordElementsStep(words: seq<Node>, w: Node)
    ensures WordElements(words + [w]) == WordElements(words) + [WordElement(w)]
  {
    assert (words + [w])[..|words|] == words;
  }

  lemma LineElementsStep(lines: seq<Node>, l: Node)
    ensures LineElements(lines + [l]) == LineElements(lines) + [LineElement(l)]
  {
    assert (lines + [l])[..|lines|] == lines;
  }

  lemma BlockElementsStep(blocks: seq<Node>, i: nat)
    requires i < |blocks|
    ensures BlockElements(blocks[..i + 1]) == BlockElements(blocks[..i]) + [BlockElement(blocks[i])]
  {
    assert blocks[..i + 1][..i] == blocks[..i];
  }

  /** The MiniOCR tree for the selected blocks: one `b` per block. */
  function MiniOcrDoc(blocks: seq<Node>): Ocr
  {
    Ocr(BlockElements(blocks))
  }

  /** The innermost loop of `getTextAsMiniOcr`: a new `l` in the last block,
      then one `w` per String child of the TextLine, with its escaped text and
      its coordinates. */
  method AppendLine(miniOcr: Tree, line: Node, ghost done: seq<Block>, ghost lines: seq<Line>)
    requires miniOcr.blocks == done + [B(lines)]
    modifies miniOcr
    ensures miniOcr.blocks == done + [B(lines + [LineElement(line)])]
  {
    NewLineAt(done, lines);
    miniOcr.AddLine();
    var words := ChildrenOf(line);
    for k := 0 to |words|
      invariant miniOcr.blocks == done + [B(lines + [L(WordElements(ChildrenWithKey(words[..k], "String")))])]
    {
      var word := words[k];
      var ws := ChildrenWithKey(words[..k], "String");
      KeyedStep(words, k, "String");
      if HasKey(word, "String") {
        var w := WordElement(word);
        assert W(Entities.Decode(GetWord(word)), GetCoordinates(word)) == w;
        NewWordAt(done, lines, WordElements(ws), w);
        WordElementsStep(ws, word);
        miniOcr.AddWord(GetWord(word), GetCoordinates(word));
        assert ChildrenWithKey(words[..k + 1], "String") == ws + [word];
      } else {
        assert ChildrenWithKey(words[..k + 1], "String") == ws;
      }
    }
    assert words[..|words|] == words;
  }

  /** The middle loop of `getTextAsMiniOcr`: a new `b`, then one `l` per
      TextLine child of the block. */
  method AppendBlock(miniOcr: Tree, block: Node)
    modifies miniOcr
    ensures miniOcr.blocks == old(miniOcr.blocks) + [BlockElement(block)]
  {
    ghost var done := miniOcr.blocks;
    miniOcr.AddBlock();
    var kids := ChildrenOf(block);
    for j := 0 to |kids|
      invariant miniOcr.blocks == done + [B(LineElements(ChildrenWithKey(kids[..j], "TextLine")))]
    {
      var value := kids[j];
      ghost var before := ChildrenWithKey(kids[..j], "TextLine");
      KeyedStep(kids, j, "TextLine");
      if HasKey(value, "TextLine") {
        AppendLine(miniOcr, value, done, LineElements(before));
        LineElementsStep(before, value);
        assert ChildrenWithKey(kids[..j + 1], "TextLine") == before + [value];
      } else {
        assert ChildrenWithKey(kids[..j + 1], "TextLine") == before;
      }
    }
    assert kids[..|kids|] == kids;
  }

  /** The outer loop of `getTextAsMiniOcr`: one `b` per selected block, on a
      fresh `<ocr>` tree. */
  method BuildMiniOcr(blocks: seq<Node>) returns (doc: Ocr)
    ensures doc == MiniOcrDoc(blocks)
  {
    var miniOcr := new Tree();
    for i := 0 to |blocks|
      invariant miniOcr.blocks == BlockElements(blocks[..i])
    {
      AppendBlock(miniOcr, blocks[i]);
      BlockElementsStep(blocks, i);
    }
    assert blocks[..|blocks|] == blocks;
    doc := miniOcr.Document();
  }

  /** `getTextAsMiniOcr`, with the host library's `asXml` as a parameter:
      "" when there is no TextBlock (no root element is built), otherwise the
      serialized mirror tree, or "" when serialization yields no string. */
  method GetTextAsMiniOcr(xml: Node, asXml: Ocr -> Option<string>) returns (r: string)
    ensures Blocks(xml) == [] ==> r == ""
    ensures Blocks(xml) != [] && asXml(MiniOcrDoc(Blocks(xml))).None? ==> r == ""
    ensures Blocks(xml) != [] && asXml(MiniOcrDoc(Blocks(xml))).Some? ==>
              r == asXml(MiniOcrDoc(Blocks(xml))).value
  {
    var blocks := Blocks(xml);
    if blocks == [] {
      return "";
    }
    var miniOcr := BuildMiniOcr(blocks);
    var miniOcrXml := asXml(miniOcr);
    if miniOcrXml.Some? {
      return miniOcrXml.value;
    }
    return "";
  }
}
