/** A reader for serialized MiniOCR documents.

    It is the partner of `MiniOcr.Serialize`: every document the serializer
    writes is read back to the same tree, so the output is well-formed in
    the sense that matters downstream, and the word texts and coordinates
    come back unchanged whatever characters they hold. */
module MiniOcrReader {
  import opened Wrappers
  import opened MiniOcr
  import opened Entities
  import opened Strings

  /** The text up to (not including) the first `stop`, and the rest. */
  function Span(s: string, stop: char): (r: (string, string))
    ensures r.0 + r.1 == s && stop !in r.0
    ensures r.1 == [] || r.1[0] == stop
  {
    if s == [] then ("", "")
    else if s[0] == stop then ("", s)
    else
      var r := Span(s[1..], stop);
      SpanCons(s, r.0, r.1, stop);
      ([s[0]] + r.0, r.1)
  }

  lemma SpanCons(s: string, p: string, rest: string, stop: char)
    requires s != [] && s[0] != stop && p + rest == s[1..] && stop !in p
    ensures [s[0]] + p + rest == s && stop !in [s[0]] + p
  {
    assert [s[0]] + p + rest == [s[0]] + (p + rest);
  }

  lemma {:induction false} SpanStops(p: string, stop: char, rest: string)
    requires stop !in p
    ensures Span(p + [stop] + rest, stop) == (p, [stop] + rest)
  {
    var s := p + [stop] + rest;
    if p == [] {
      assert s == [stop] + rest;
    } else {
      assert s[0] == p[0] && s[0] != stop;
      assert s[1..] == p[1..] + [stop] + rest;
      SpanStops(p[1..], stop, rest);
      assert p == [p[0]] + p[1..];
    }
  }

  /** `<w x="…"/>` or `<w x="…">text</w>`. */
  function ParseWord(s: string): (r: Option<(Word, string)>)
    ensures r.Some? ==> |r.value.1| < |s|
    ensures r.Some? ==> StartsWith(s, "<w")
  {
    if !StartsWith(s, "<w x=\"") then None
    else
      var (attr, r1) := Span(s[6..], '"');
      if r1 == [] then None else ParseWordEnd(Decode(attr), r1[1..])
  }

  /** What follows the `x` attribute of a word whose coordinates are `x`. */
  function ParseWordEnd(x: string, s: string): (r: Option<(Word, string)>)
    ensures r.Some? ==> |r.value.1| <= |s|
  {
    if StartsWith(s, "/>") then Some((W("", x), s[2..]))
    else if !StartsWith(s, ">") then None
    else
      var (text, rest) := Span(s[1..], '<');
      if StartsWith(rest, "</w>") then Some((W(Decode(text), x), rest[4..])) else None
  }

  function ParseWords(s: string): (r: (seq<Word>, string))
    ensures |r.1| <= |s|
    decreases |s|
  {
    if !StartsWith(s, "<w") then ([], s)
    else match ParseWord(s)
      case None => ([], s)
      case Some((w, rest)) =>
        var (ws, rest') := ParseWords(rest);
        ([w] + ws, rest')
  }

  /** `<l/>` or `<l>words</l>`. */
  function ParseLine(s: string): (r: Option<(Line, string)>)
    ensures r.Some? ==> |r.value.1| < |s|
    ensures r.Some? ==> StartsWith(s, "<l")
  {
    if StartsWith(s, "<l/>") then Some((L([]), s[4..]))
    else if !StartsWith(s, "<l>") then None
    else
      var (ws, rest) := ParseWords(s[3..]);
      if StartsWith(rest, "</l>") then Some((L(ws), rest[4..])) else None
  }

  function ParseLines(s: string): (r: (seq<Line>, string))
    ensures |r.1| <= |s|
    decreases |s|
  {
    if !StartsWith(s, "<l") then ([], s)
    else match ParseLine(s)
      case None => ([], s)
      case Some((l, rest)) =>
        var (ls, rest') := ParseLines(rest);
        ([l] + ls, rest')
  }

  /** `<b/>` or `<b>lines</b>`. */
  function ParseBlock(s: string): (r: Option<(Block, string)>)
    ensures r.Some? ==> |r.value.1| < |s|
    ensures r.Some? ==> StartsWith(s, "<b")
  {
    if StartsWith(s, "<b/>") then Some((B([]), s[4..]))
    else if !StartsWith(s, "<b>") then None
    else
      var (ls, rest) := ParseLines(s[3..]);
      if StartsWith(rest, "</b>") then Some((B(ls), rest[4..])) else None
  }

  function ParseBlocks(s: string): (r: (seq<Block>, string))
    ensures |r.1| <= |s|
    decreases |s|
  {
    if !StartsWith(s, "<b") then ([], s)
    else match ParseBlock(s)
      case None => ([], s)
      case Some((b, rest)) =>
        var (bs, rest') := ParseBlocks(rest);
        ([b] + bs, rest')
  }

  /** Reads a whole serialized document: declaration, root, final line break. */
  function Parse(s: string): Option<Ocr>
  {
    if !StartsWith(s, Declaration) then None else ParseRoot(s[|Declaration|..])
  }

  /** `<ocr/>` or `<ocr>blocks</ocr>`, then the final line break. */
  function ParseRoot(s: string): Option<Ocr>
  {
    if StartsWith(s, "<ocr/>") then (if s[6..] == "\n" then Some(Ocr([])) else None)
    else if !StartsWith(s, "<ocr>") then None
    else
      var (bs, rest) := ParseBlocks(s[5..]);
      if rest == "</ocr>\n" then Some(Ocr(bs)) else None
  }

  lemma {:induction false} StartsWithAppend(p: string, t: string)
    ensures StartsWith(p + t, p) && (p + t)[|p|..] == t
  {
    assert (p + t)[..|p|] == p;
  }

  lemma {:induction false} EscapeEmpty(s: string, special: set<char>)
    ensures Escape(s, special) == "" <==> s == ""
  {
    if s != [] {
      assert |Escape(s, special)| >= |(if s[0] in special then Entity(s[0]) else [s[0]])|;
    }
  }

  /** The end of a word element, after its attribute, reads back. */
  lemma {:induction false} WordEndRoundTrip(text: string, x: string, rest: string)
    ensures ParseWordEnd(x, ElementEnd("w", Escape(text, TextSpecial)) + rest) == Some((W(text, x), rest))
  {
    var tx := Escape(text, TextSpecial);
    EscapeEmpty(text, TextSpecial);
    if tx == "" {
      StartsWithAppend("/>", rest);
    } else {
      WordContentRoundTrip(text, x, rest);
    }
  }

  /** The end of a word with text: `>`, the escaped text, and `</w>`. */
  lemma WordEndShape(tx: string, rest: string)
    requires tx != ""
    ensures ElementEnd("w", tx) + rest == ">" + (tx + ['<'] + ("/w>" + rest))
    ensures ['<'] + ("/w>" + rest) == "</w>" + rest
  {
  }

  lemma {:induction false} WordContentRoundTrip(text: string, x: string, rest: string)
    requires Escape(text, TextSpecial) != ""
    ensures ParseWordEnd(x, ElementEnd("w", Escape(text, TextSpecial)) + rest) == Some((W(text, x), rest))
  {
    var tx := Escape(text, TextSpecial);
    var body := tx + ['<'] + ("/w>" + rest);
    WordEndShape(tx, rest);
    StartsWithAppend(">", body);
    assert (">" + body)[0] == '>';
    SpanStops(tx, '<', "/w>" + rest);
    StartsWithAppend("</w>", rest);
    RoundTrip(text, TextSpecial);
  }

  /** A serialized word is its opening, its escaped coordinates, a quote and
      its end. */
  lemma WordShape(w: Word, rest: string)
    ensures WordXml(w) + rest
         == "<w x=\"" + (Escape(w.x, AttrSpecial) + ['"'] + (ElementEnd("w", Escape(w.text, TextSpecial)) + rest))
  {
    AttrShape(Escape(w.x, AttrSpecial), ElementEnd("w", Escape(w.text, TextSpecial)), rest);
  }

  /** An element with one attribute `x` is its opening `<w x="`, the value, a
      quote and its end. */
  lemma AttrShape(ax: string, end: string, rest: string)
    ensures "<" + ("w x=\"" + ax + "\"") + end + rest == "<w x=\"" + (ax + ['"'] + (end + rest))
  {
  }

  /** The opening of a word element up to its end: the `x` attribute is read
      as the escaped coordinates. */
  lemma {:induction false} WordOpen(w: Word, rest: string)
    ensures var s := WordXml(w) + rest;
      StartsWith(s, "<w x=\"") &&
      Span(s[6..], '"') == (Escape(w.x, AttrSpecial), ['"'] + (ElementEnd("w", Escape(w.text, TextSpecial)) + rest))
  {
    var ax := Escape(w.x, AttrSpecial);
    var tail := ElementEnd("w", Escape(w.text, TextSpecial)) + rest;
    WordShape(w, rest);
    StartsWithAppend("<w x=\"", ax + ['"'] + tail);
    SpanStops(ax, '"', tail);
  }

  lemma {:induction false} WordRoundTrip(w: Word, rest: string)
    ensures ParseWord(WordXml(w) + rest) == Some((w, rest))
  {
    var tail := ElementEnd("w", Escape(w.text, TextSpecial)) + rest;
    WordOpen(w, rest);
    RoundTrip(w.x, AttrSpecial);
    assert (['"'] + tail)[1..] == tail;
    WordEndRoundTrip(w.text, w.x, rest);
  }

  /** A list parser reads one more item when the item parser succeeds. */
  lemma {:induction false} ParseWordsCons(s: string, x: Word, tail: string)
    requires ParseWord(s) == Some((x, tail))
    ensures ParseWords(s) == ([x] + ParseWords(tail).0, ParseWords(tail).1)
  {
  }

  lemma {:induction false} WordsHead(ws: seq<Word>, rest: string)
    requires ws != []
    ensures ParseWord(WordsXml(ws) + rest) == Some((ws[0], WordsXml(ws[1..]) + rest))
  {
    assert WordsXml(ws) + rest == WordXml(ws[0]) + (WordsXml(ws[1..]) + rest);
    WordRoundTrip(ws[0], WordsXml(ws[1..]) + rest);
  }

  lemma {:induction false} WordsRoundTrip(ws: seq<Word>, rest: string)
    requires !StartsWith(rest, "<w")
    ensures ParseWords(WordsXml(ws) + rest) == (ws, rest)
  {
    if ws != [] {
      var tail := WordsXml(ws[1..]) + rest;
      WordsHead(ws, rest);
      ParseWordsCons(WordsXml(ws) + rest, ws[0], tail);
      WordsRoundTrip(ws[1..], rest);
      assert [ws[0]] + ws[1..] == ws;
    } else {
      assert WordsXml(ws) + rest == rest;
    }
  }


  /** A closing tag is read off, and no opening tag starts where it stands. */
  lemma CloseTag(close: string, rest: string, open: string)
    requires 2 <= |close| && close[1] == '/'
    requires 2 <= |open| && open[1] != '/'
    ensures StartsWith(close + rest, close) && (close + rest)[|close|..] == rest
    ensures !StartsWith(close + rest, open)
  {
    StartsWithAppend(close, rest);
    assert (close + rest)[1] == '/';
  }

  /** A non-empty element with a one-letter name is its opening tag, its
      content and its closing tag. */
  lemma ElementShape(tag: string, open: string, close: string, inner: string, rest: string)
    requires inner != ""
    requires open == "<" + tag + ">" && close == "</" + tag + ">"
    ensures ElementXml(tag, tag, inner) + rest == open + (inner + (close + rest))
  {
  }

  /** A non-empty `l` or `b` element starts with its opening tag (and not
      with the empty-element tag), followed by its content and closing tag. */
  lemma TagOpen(tag: string, open: string, close: string, empty: string, inner: string, rest: string)
    requires |tag| == 1 && inner != ""
    requires open == "<" + tag + ">" && close == "</" + tag + ">" && empty == "<" + tag + "/>"
    ensures var s := ElementXml(tag, tag, inner) + rest;
      !StartsWith(s, empty) && StartsWith(s, open) && s[3..] == inner + (close + rest)
  {
    ElementShape(tag, open, close, inner, rest);
    StartsWithAppend(open, inner + (close + rest));
    assert (open + (inner + (close + rest)))[2] == '>';
  }

  lemma {:induction false} LineRoundTrip(l: Line, rest: string)
    ensures ParseLine(LineXml(l) + rest) == Some((l, rest))
  {
    if l.words == [] {
      assert LineXml(l) == "<l/>";
      StartsWithAppend("<l/>", rest);
    } else {
      assert WordsXml(l.words) != "" by { assert |WordXml(l.words[0])| > 0; }
      TagOpen("l", "<l>", "</l>", "<l/>", WordsXml(l.words), rest);
      CloseTag("</l>", rest, "<w");
      WordsRoundTrip(l.words, "</l>" + rest);
    }
  }

  /** A list parser reads one more item when the item parser succeeds. */
  lemma {:induction false} ParseLinesCons(s: string, x: Line, tail: string)
    requires ParseLine(s) == Some((x, tail))
    ensures ParseLines(s) == ([x] + ParseLines(tail).0, ParseLines(tail).1)
  {
  }

  lemma {:induction false} LinesHead(ls: seq<Line>, rest: string)
    requires ls != []
    ensures ParseLine(LinesXml(ls) + rest) == Some((ls[0], LinesXml(ls[1..]) + rest))
  {
    assert LinesXml(ls) + rest == LineXml(ls[0]) + (LinesXml(ls[1..]) + rest);
    LineRoundTrip(ls[0], LinesXml(ls[1..]) + rest);
  }

  lemma {:induction false} LinesRoundTrip(ls: seq<Line>, rest: string)
    requires !StartsWith(rest, "<l")
    ensures ParseLines(LinesXml(ls) + rest) == (ls, rest)
  {
    if ls != [] {
      var tail := LinesXml(ls[1..]) + rest;
      LinesHead(ls, rest);
      ParseLinesCons(LinesXml(ls) + rest, ls[0], tail);
      LinesRoundTrip(ls[1..], rest);
      assert [ls[0]] + ls[1..] == ls;
    } else {
      assert LinesXml(ls) + rest == rest;
    }
  }


  lemma {:induction false} BlockRoundTrip(b: Block, rest: string)
    ensures ParseBlock(BlockXml(b) + rest) == Some((b, rest))
  {
    if b.lines == [] {
      assert BlockXml(b) == "<b/>";
      StartsWithAppend("<b/>", rest);
    } else {
      assert LinesXml(b.lines) != "" by { assert |LineXml(b.lines[0])| > 0; }
      TagOpen("b", "<b>", "</b>", "<b/>", LinesXml(b.lines), rest);
      CloseTag("</b>", rest, "<l");
      LinesRoundTrip(b.lines, "</b>" + rest);
    }
  }

  /** A list parser reads one more item when the item parser succeeds. */
  lemma {:induction false} ParseBlocksCons(s: string, x: Block, tail: string)
    requires ParseBlock(s) == Some((x, tail))
    ensures ParseBlocks(s) == ([x] + ParseBlocks(tail).0, ParseBlocks(tail).1)
  {
  }

  lemma {:induction false} BlocksHead(bs: seq<Block>, rest: string)
    requires bs != []
    ensures ParseBlock(BlocksXml(bs) + rest) == Some((bs[0], BlocksXml(bs[1..]) + rest))
  {
    assert BlocksXml(bs) + rest == BlockXml(bs[0]) + (BlocksXml(bs[1..]) + rest);
    BlockRoundTrip(bs[0], BlocksXml(bs[1..]) + rest);
  }

  lemma {:induction false} BlocksRoundTrip(bs: seq<Block>, rest: string)
    requires !StartsWith(rest, "<b")
    ensures ParseBlocks(BlocksXml(bs) + rest) == (bs, rest)
  {
    if bs != [] {
      var tail := BlocksXml(bs[1..]) + rest;
      BlocksHead(bs, rest);
      ParseBlocksCons(BlocksXml(bs) + rest, bs[0], tail);
      BlocksRoundTrip(bs[1..], rest);
      assert [bs[0]] + bs[1..] == bs;
    } else {
      assert BlocksXml(bs) + rest == rest;
    }
  }


  lemma RootShape(inner: string)
    requires inner != ""
    ensures ElementXml("ocr", "ocr", inner) + "\n" == "<ocr>" + (inner + "</ocr>\n")
  {
  }

  lemma RootOpen(inner: string)
    requires inner != ""
    ensures var s := ElementXml("ocr", "ocr", inner) + "\n";
      !StartsWith(s, "<ocr/>") && StartsWith(s, "<ocr>") && s[5..] == inner + "</ocr>\n"
  {
    RootShape(inner);
    StartsWithAppend("<ocr>", inner + "</ocr>\n");
    assert ("<ocr>" + (inner + "</ocr>\n"))[4] == '>';
  }

  lemma {:induction false} RootRoundTrip(bs: seq<Block>)
    ensures ParseRoot(ElementXml("ocr", "ocr", BlocksXml(bs)) + "\n") == Some(Ocr(bs))
  {
    if bs == [] {
      assert ElementXml("ocr", "ocr", BlocksXml(bs)) + "\n" == "<ocr/>" + "\n";
      StartsWithAppend("<ocr/>", "\n");
    } else {
      assert BlocksXml(bs) != "" by { assert |BlockXml(bs[0])| > 0; }
      RootOpen(BlocksXml(bs));
      assert !StartsWith("</ocr>\n", "<b") by { assert "</ocr>\n"[1] == '/'; }
      BlocksRoundTrip(bs, "</ocr>\n");
      assert BlocksXml(bs) + "</ocr>\n" == BlocksXml(bs) + "</ocr>\n";
    }
  }

  /** Everything the serializer writes reads back as the same document. */
  lemma {:induction false} ReadSerialized(doc: Ocr)
    ensures Parse(Serialize(doc)) == Some(doc)
  {
    var root := ElementXml("ocr", "ocr", BlocksXml(doc.blocks)) + "\n";
    assert Serialize(doc) == Declaration + root;
    StartsWithAppend(Declaration, root);
    RootRoundTrip(doc.blocks);
  }
}
