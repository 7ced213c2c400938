/** The MiniOCR output document `ocr > b > l > w`, the mutable tree the ALTO
    adapter builds it in, and its serialization.

    The tree stands for the SimpleXML element `<ocr></ocr>` that the adapter
    grows with `addChild`.  The adapter only ever adds to the block and the
    line it created last, so the handles `$newBlock` and `$newLine` are
    modelled as "the last block" and "the last line of the last block". */
module MiniOcr {
  import opened Wrappers
  import Entities
  import Strings

  /** A `w` element: its text content and its `x` attribute. */
  datatype Word = W(text: string, x: string)
  /** An `l` element. */
  datatype Line = L(words: seq<Word>)
  /** A `b` element. */
  datatype Block = B(lines: seq<Line>)
  /** The `ocr` root element. */
  datatype Ocr = Ocr(blocks: seq<Block>)

  /** The blocks after a new empty line is appended to the last block. */
  function WithNewLine(blocks: seq<Block>): (r: seq<Block>)
    requires blocks != []
    ensures |r| == |blocks| && r[..|r| - 1] == blocks[..|blocks| - 1]
    ensures r[|r| - 1].lines == blocks[|blocks| - 1].lines + [L([])]
  {
    var last := blocks[|blocks| - 1];
    blocks[..|blocks| - 1] + [B(last.lines + [L([])])]
  }

  /** The blocks after `w` is appended to the last line of the last block. */
  function WithNewWord(blocks: seq<Block>, w: Word): (r: seq<Block>)
    requires blocks != [] && blocks[|blocks| - 1].lines != []
    ensures |r| == |blocks| && r[..|r| - 1] == blocks[..|blocks| - 1]
    ensures var lines, lines' := blocks[|blocks| - 1].lines, r[|r| - 1].lines;
      |lines'| == |lines| && lines'[..|lines| - 1] == lines[..|lines| - 1] &&
      lines'[|lines| - 1].words == lines[|lines| - 1].words + [w]
  {
    var last := blocks[|blocks| - 1];
    var line := last.lines[|last.lines| - 1];
    blocks[..|blocks| - 1] + [B(last.lines[..|last.lines| - 1] + [L(line.words + [w])])]
  }

  /** A new line goes after the lines of the last block. */
  lemma NewLineAt(done: seq<Block>, lines: seq<Line>)
    ensures WithNewLine(done + [B(lines)]) == done + [B(lines + [L([])])]
  {
    assert (done + [B(lines)])[..|done|] == done;
  }

  /** A new word goes after the words of the last line of the last block. */
  lemma NewWordAt(done: seq<Block>, lines: seq<Line>, ws: seq<Word>, w: Word)
    ensures WithNewWord(done + [B(lines + [L(ws)])], w) == done + [B(lines + [L(ws + [w])])]
  {
    assert (done + [B(lines + [L(ws)])])[..|done|] == done;
    assert (lines + [L(ws)])[..|lines|] == lines;
  }

  /** The output tree under construction. */
  class Tree {
    var blocks: seq<Block>

    /** `new SimpleXMLElement("<ocr></ocr>")`. */
    constructor ()
      ensures blocks == []
    {
      blocks := [];
    }

    function Document(): Ocr
      reads this
    {
      Ocr(blocks)
    }

    /** `$miniOcr->addChild('b')`. */
    method AddBlock()
      modifies this
      ensures blocks == old(blocks) + [B([])]
    {
      blocks := blocks + [B([])];
    }

    /** `$newBlock->addChild('l')` on the block created last. */
    method AddLine()
      requires blocks != []
      modifies this
      ensures blocks == WithNewLine(old(blocks))
    {
      blocks := WithNewLine(blocks);
    }

    /** `$newLine->addChild('w', value)` followed by `addAttribute('x', x)`
        on the new word.  `addChild` takes `value` as XML character data, so
        the entity references in it are resolved before it becomes text, and
        it must be well-formed character data. */
    method AddWord(value: string, x: string)
      requires blocks != [] && blocks[|blocks| - 1].lines != []
      requires Entities.Escaped(value)
      modifies this
      ensures blocks == WithNewWord(old(blocks), W(Entities.Decode(value), x))
    {
      blocks := WithNewWord(blocks, W(Entities.Decode(value), x));
    }
  }

  /** The XML declaration `asXml` writes before the root element. */
  const Declaration: string := "<?xml version=\"1.0\"?>\n"

  /** An element with the start tag contents `open` (name and attributes),
      written as an empty-element tag when it has no content. */
  function ElementXml(open: string, tag: string, content: string): string
  {
    "<" + open + ElementEnd(tag, content)
  }

  /** What follows the name and attributes of an element. */
  function ElementEnd(tag: string, content: string): string
  {
    if content == "" then "/>" else ">" + content + "</" + tag + ">"
  }

  function WordXml(w: Word): string
  {
    ElementXml("w x=\"" + Entities.Escape(w.x, Entities.AttrSpecial) + "\"", "w",
               Entities.Escape(w.text, Entities.TextSpecial))
  }

  function WordsXml(ws: seq<Word>): string
  {
    if ws == [] then "" else WordXml(ws[0]) + WordsXml(ws[1..])
  }

  function LineXml(l: Line): string
  {
    ElementXml("l", "l", WordsXml(l.words))
  }

  function LinesXml(ls: seq<Line>): string
  {
    if ls == [] then "" else LineXml(ls[0]) + LinesXml(ls[1..])
  }

  function BlockXml(b: Block): string
  {
    ElementXml("b", "b", LinesXml(b.lines))
  }

  function BlocksXml(bs: seq<Block>): string
  {
    if bs == [] then "" else BlockXml(bs[0]) + BlocksXml(bs[1..])
  }

  /** `$miniOcr->asXml()` on a tree the serializer can write: the declaration,
      the root element, and a final line break. */
  function Serialize(doc: Ocr): (r: string)
    ensures Strings.StartsWith(r, Declaration + "<ocr")
    ensures r[|r| - 1] == '\n'
  {
    var end := ElementEnd("ocr", BlocksXml(doc.blocks));
    assert ElementXml("ocr", "ocr", BlocksXml(doc.blocks)) == "<ocr" + end;
    Framed(Declaration, "<ocr", end, "\n");
    Declaration + ElementXml("ocr", "ocr", BlocksXml(doc.blocks)) + "\n"
  }

  /** A head, a start tag, the rest of the element and a tail, written one
      after the other, start with the head and the tag and end with the tail. */
  lemma Framed(head: string, open: string, end: string, tail: string)
    requires |tail| > 0
    ensures Strings.StartsWith(head + (open + end) + tail, head + open)
    ensures (head + (open + end) + tail)[|head + (open + end) + tail| - 1] == tail[|tail| - 1]
  {
    assert head + (open + end) + tail == (head + open) + (end + tail);
  }

  /** The serializer as `asXml` presents it: a string, or no string when the
      XML library fails (which this serializer never does). */
  function AsXml(doc: Ocr): (r: Option<string>)
    ensures r.Some? && Strings.StartsWith(r.value, Declaration + "<ocr")
  {
    Some(Serialize(doc))
  }
}
