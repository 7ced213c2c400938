/** What the ALTO extraction promises, stated over the selection and
    construction functions of module `Alto`. */
module AltoProperties {
  import opened Xml
  import opened MiniOcr
  import opened Alto

  /* ---------------------------------------------------------------------
     The `children()` filter: exactly the children with the key, in order
     --------------------------------------------------------------------- */

  lemma {:induction false} KeyedMembers(kids: seq<Node>, key: string)
    ensures forall n :: n in ChildrenWithKey(kids, key) <==> n in kids && HasKey(n, key)
  {
    if kids != [] {
      KeyedMembers(kids[..|kids| - 1], key);
      assert kids == kids[..|kids| - 1] + [kids[|kids| - 1]];
    }
  }

  /** Filtering distributes over concatenation, so the kept children stay in
      their original order. */
  lemma {:induction false} KeyedAppend(xs: seq<Node>, ys: seq<Node>, key: string)
    ensures ChildrenWithKey(xs + ys, key) == ChildrenWithKey(xs, key) + ChildrenWithKey(ys, key)
    decreases |ys|
  {
    if ys == [] {
      assert xs + ys == xs;
    } else {
      var init := ys[..|ys| - 1];
      var last := ys[|ys| - 1];
      assert (xs + ys)[..|xs + ys| - 1] == xs + init;
      KeyedAppend(xs, init, key);
    }
  }

  /* ---------------------------------------------------------------------
     The TextBlock selection: every TextBlock strictly below a PrintSpace
     --------------------------------------------------------------------- */

  /** `d` is a proper descendant of `n`. */
  ghost predicate Below(d: Node, n: Node)
    decreases n
  {
    match n
    case Text(_) => false
    case Element(_, _, kids) => exists k :: k in kids && (k == d || Below(d, k))
  }

  /** A node is in `BlocksIn(n)` exactly when it is a TextBlock that is `n`
      or lies below it. */
  lemma {:induction false} BlocksInHas(n: Node, b: Node)
    ensures b in BlocksIn(n) <==> IsAlto(b, "TextBlock") && (b == n || Below(b, n))
    decreases n, 1
  {
    match n
    case Text(_) =>
    case Element(_, _, kids) =>
      BlocksInSeqHas(kids, b);
  }

  lemma {:induction false} BlocksInSeqHas(kids: seq<Node>, b: Node)
    ensures b in BlocksInSeq(kids) <==>
      IsAlto(b, "TextBlock") && exists k :: k in kids && (k == b || Below(b, k))
    decreases kids, 0
  {
    if kids != [] {
      var init := kids[..|kids| - 1];
      var last := kids[|kids| - 1];
      BlocksInSeqHas(init, b);
      BlocksInHas(last, b);
      assert kids == init + [last];
      assert BlocksInSeq(kids) == BlocksInSeq(init) + BlocksIn(last);
      ReachesSnoc(b, init, last);
    }
  }

  /** `b` is `k` or lies below it. */
  ghost predicate Reaches(b: Node, k: Node)
  {
    k == b || Below(b, k)
  }

  lemma ReachesSnoc(b: Node, init: seq<Node>, last: Node)
    ensures (exists k :: k in init + [last] && (k == b || Below(b, k))) <==>
      (exists k :: k in init && (k == b || Below(b, k))) || Reaches(b, last)
  {
    if exists k :: k in init && (k == b || Below(b, k)) {
      var k :| k in init && (k == b || Below(b, k));
      assert k in init + [last];
    }
    if Reaches(b, last) {
      assert last in init + [last];
    }
    if exists k :: k in init + [last] && (k == b || Below(b, k)) {
      var k :| k in init + [last] && (k == b || Below(b, k));
      if k != last {
        assert k in init;
      }
    }
  }

  lemma BlocksInSeqMembers(kids: seq<Node>)
    ensures forall b :: b in BlocksInSeq(kids) <==>
      IsAlto(b, "TextBlock") && exists k :: k in kids && (k == b || Below(b, k))
  {
    forall b
      ensures b in BlocksInSeq(kids) <==>
        IsAlto(b, "TextBlock") && exists k :: k in kids && (k == b || Below(b, k))
    {
      BlocksInSeqHas(kids, b);
    }
  }

  lemma {:induction false} BlocksUnderMembers(ps: seq<Node>)
    ensures forall b :: b in BlocksUnder(ps) <==>
      IsAlto(b, "TextBlock") && exists p :: p in ps && Below(b, p)
  {
    if ps != [] {
      var init := ps[..|ps| - 1];
      var last := ps[|ps| - 1];
      BlocksUnderMembers(init);
      BlocksInSeqMembers(ChildrenOf(last));
      assert ps == init + [last];
      forall b
        ensures b in BlocksUnder(ps) <==> IsAlto(b, "TextBlock") && exists p :: p in ps && Below(b, p)
      {
        if b in BlocksInSeq(ChildrenOf(last)) {
          assert Below(b, last);
        }
        if IsAlto(b, "TextBlock") && exists p :: p in ps && Below(b, p) {
          var p :| p in ps && Below(b, p);
          if p != last {
            assert p in init;
          }
        }
      }
    }
  }

  /** The MiniOCR block set: a node is selected exactly when it is a TextBlock
      found at any depth below one of the page's PrintSpace elements. */
  lemma BlocksAreTextBlocksBelowPrintSpace(xml: Node)
    ensures forall b :: b in Blocks(xml) <==>
      IsAlto(b, "TextBlock") && exists p :: p in PrintSpaces(xml) && Below(b, p)
  {
    BlocksUnderMembers(PrintSpaces(xml));
  }

  /* ---------------------------------------------------------------------
     The MiniOCR tree mirrors the selected ALTO structure
     --------------------------------------------------------------------- */

  lemma {:induction false} WordElementsMirror(words: seq<Node>)
    ensures |WordElements(words)| == |words|
    ensures forall k :: 0 <= k < |words| ==> WordElements(words)[k] == WordElement(words[k])
  {
    WordElementsLength(words);
    forall k | 0 <= k < |words|
      ensures WordElements(words)[k] == WordElement(words[k])
    {
      WordElementsAt(words, k);
    }
  }

  lemma {:induction false} WordElementsLength(words: seq<Node>)
    ensures |WordElements(words)| == |words|
  {
    if words != [] {
      WordElementsLength(words[..|words| - 1]);
    }
  }

  lemma {:induction false} WordElementsAt(words: seq<Node>, n: nat)
    requires n < |words|
    ensures |WordElements(words)| == |words|
    ensures WordElements(words)[n] == WordElement(words[n])
  {
    var init := words[..|words| - 1];
    WordElementsLength(init);
    WordElementsLength(words);
    assert WordElements(words) == WordElements(init) + [WordElement(words[|words| - 1])];
    if n < |init| {
      WordElementsAt(init, n);
      assert init[n] == words[n];
    }
  }

  lemma {:induction false} LineElementsMirror(lines: seq<Node>)
    ensures |LineElements(lines)| == |lines|
    ensures forall j :: 0 <= j < |lines| ==> LineElements(lines)[j] == LineElement(lines[j])
  {
    LineElementsLength(lines);
    forall j | 0 <= j < |lines|
      ensures LineElements(lines)[j] == LineElement(lines[j])
    {
      LineElementsAt(lines, j);
    }
  }

  lemma {:induction false} LineElementsLength(lines: seq<Node>)
    ensures |LineElements(lines)| == |lines|
  {
    if lines != [] {
      LineElementsLength(lines[..|lines| - 1]);
    }
  }

  lemma {:induction false} LineElementsAt(lines: seq<Node>, n: nat)
    requires n < |lines|
    ensures |LineElements(lines)| == |lines|
    ensures LineElements(lines)[n] == LineElement(lines[n])
  {
    var init := lines[..|lines| - 1];
    LineElementsLength(init);
    LineElementsLength(lines);
    assert LineElements(lines) == LineElements(init) + [LineElement(lines[|lines| - 1])];
    if n < |init| {
      LineElementsAt(init, n);
      assert init[n] == lines[n];
    }
  }

  lemma {:induction false} BlockElementsMirror(blocks: seq<Node>)
    ensures |BlockElements(blocks)| == |blocks|
    ensures forall i :: 0 <= i < |blocks| ==> BlockElements(blocks)[i] == BlockElement(blocks[i])
  {
    BlockElementsLength(blocks);
    forall i | 0 <= i < |blocks|
      ensures BlockElements(blocks)[i] == BlockElement(blocks[i])
    {
      BlockElementsAt(blocks, i);
    }
  }

  lemma {:induction false} BlockElementsLength(blocks: seq<Node>)
    ensures |BlockElements(blocks)| == |blocks|
  {
    if blocks != [] {
      BlockElementsLength(blocks[..|blocks| - 1]);
    }
  }

  lemma {:induction false} BlockElementsAt(blocks: seq<Node>, n: nat)
    requires n < |blocks|
    ensures |BlockElements(blocks)| == |blocks|
    ensures BlockElements(blocks)[n] == BlockElement(blocks[n])
  {
    var init := blocks[..|blocks| - 1];
    BlockElementsLength(init);
    BlockElementsLength(blocks);
    assert BlockElements(blocks) == BlockElements(init) + [BlockElement(blocks[|blocks| - 1])];
    if n < |init| {
      BlockElementsAt(init, n);
      assert init[n] == blocks[n];
    }
  }

  /** One `b` per selected TextBlock, one `l` per direct TextLine child of
      that block and one `w` per direct String child of that line, each in
      source order; the `w` holds CONTENT and a space, and its `x` attribute
      the four coordinates. */
  lemma MiniOcrMirrors(blocks: seq<Node>)
    ensures var doc := MiniOcrDoc(blocks);
      |doc.blocks| == |blocks| &&
      forall i :: 0 <= i < |blocks| ==>
        var lines := TextLines(blocks[i]);
        |doc.blocks[i].lines| == |lines| &&
        forall j :: 0 <= j < |lines| ==>
          var words := WordNodes(lines[j]);
          |doc.blocks[i].lines[j].words| == |words| &&
          forall k :: 0 <= k < |words| ==>
            doc.blocks[i].lines[j].words[k] ==
              W(Attr(words[k], "CONTENT") + " ",
                Attr(words[k], "HPOS") + " " + Attr(words[k], "VPOS") + " " +
                Attr(words[k], "WIDTH") + " " + Attr(words[k], "HEIGHT"))
  {
    BlockElementsMirror(blocks);
    forall i | 0 <= i < |blocks|
      ensures var lines := TextLines(blocks[i]);
        |MiniOcrDoc(blocks).blocks[i].lines| == |lines| &&
        forall j :: 0 <= j < |lines| ==>
          var words := WordNodes(lines[j]);
          |MiniOcrDoc(blocks).blocks[i].lines[j].words| == |words| &&
          forall k :: 0 <= k < |words| ==>
            MiniOcrDoc(blocks).blocks[i].lines[j].words[k] ==
              W(Attr(words[k], "CONTENT") + " ",
                Attr(words[k], "HPOS") + " " + Attr(words[k], "VPOS") + " " +
                Attr(words[k], "WIDTH") + " " + Attr(words[k], "HEIGHT"))
    {
      var lines := TextLines(blocks[i]);
      LineElementsMirror(lines);
      forall j | 0 <= j < |lines|
        ensures var words := WordNodes(lines[j]);
          |MiniOcrDoc(blocks).blocks[i].lines[j].words| == |words| &&
          forall k :: 0 <= k < |words| ==>
            MiniOcrDoc(blocks).blocks[i].lines[j].words[k] ==
              W(Attr(words[k], "CONTENT") + " ",
                Attr(words[k], "HPOS") + " " + Attr(words[k], "VPOS") + " " +
                Attr(words[k], "WIDTH") + " " + Attr(words[k], "HEIGHT"))
      {
        WordElementsMirror(WordNodes(lines[j]));
      }
    }
  }

  /* ---------------------------------------------------------------------
     No TextBlock, no text
     --------------------------------------------------------------------- */

  /** A subtree without TextBlocks yields no words, unless it sits directly
      under a block or is a child of a TextLine whose parent is a block. */
  lemma {:induction false} QuietIn(n: Node, a: Ancestry)
    requires BlocksIn(n) == []
    requires !a.parentBlock && !(a.parentLine && a.grandBlock)
    ensures WordsIn(n, a) == []
    decreases n, 1
  {
    match n
    case Text(_) =>
    case Element(_, _, kids) =>
      QuietInSeq(kids, ChildAncestry(n, a));
  }

  lemma {:induction false} QuietInSeq(kids: seq<Node>, a: Ancestry)
    requires BlocksInSeq(kids) == []
    requires !a.parentBlock && !(a.parentLine && a.grandBlock)
    ensures WordsInSeq(kids, a) == []
    decreases kids, 0
  {
    if kids != [] {
      QuietInSeq(kids[..|kids| - 1], a);
      QuietIn(kids[|kids| - 1], a);
    }
  }

  lemma {:induction false} QuietUnder(ps: seq<Node>)
    requires BlocksUnder(ps) == []
    ensures WordsUnder(ps) == []
  {
    if ps != [] {
      QuietUnder(ps[..|ps| - 1]);
      QuietInSeq(ChildrenOf(ps[|ps| - 1]), Top);
    }
  }

  /** A page without any TextBlock below its PrintSpace gives "" both as raw
      text and (by the contract of `GetTextAsMiniOcr`) as MiniOCR. */
  lemma NoBlocksNoText(xml: Node)
    requires Blocks(xml) == []
    ensures RawWords(xml) == [] && GetRawText(xml) == ""
  {
    QuietUnder(PrintSpaces(xml));
  }

  /* ---------------------------------------------------------------------
     Raw text and MiniOCR carry the same words
     --------------------------------------------------------------------- */

  /** The words taken from each item of a sequence, item after item. */
  function Gather<T>(xs: seq<T>, f: T -> seq<string>): seq<string>
  {
    if xs == [] then [] else f(xs[0]) + Gather(xs[1..], f)
  }

  lemma {:induction false} GatherAppend<T>(xs: seq<T>, ys: seq<T>, f: T -> seq<string>)
    ensures Gather(xs + ys, f) == Gather(xs, f) + Gather(ys, f)
  {
    if xs == [] {
      assert xs + ys == ys;
    } else {
      assert (xs + ys)[0] == xs[0];
      assert (xs + ys)[1..] == xs[1..] + ys;
      GatherAppend(xs[1..], ys, f);
    }
  }

  lemma GatherStep<T>(xs: seq<T>, x: T, f: T -> seq<string>)
    ensures Gather(xs + [x], f) == Gather(xs, f) + f(x)
  {
    GatherAppend(xs, [x], f);
    assert [x][1..] == [];
  }

  lemma GatherOne<T>(x: T, f: T -> seq<string>)
    ensures Gather([x], f) == f(x)
  {
    assert [x][1..] == [];
  }

  function ContentOfWord(w: Node): seq<string>
  {
    [Attr(w, "CONTENT")]
  }

  /** The CONTENT values of a run of String elements. */
  function Contents(words: seq<Node>): seq<string>
  {
    Gather(words, ContentOfWord)
  }

  function ContentOfLine(l: Node): seq<string>
  {
    Contents(WordNodes(l))
  }

  /** The CONTENT values of the String children of a run of TextLines. */
  function LinesContents(lines: seq<Node>): seq<string>
  {
    Gather(lines, ContentOfLine)
  }

  function ContentOfBlock(b: Node): seq<string>
  {
    LinesContents(TextLines(b))
  }

  /** The words a MiniOCR block is made from, block after block. */
  function BlockContents(blocks: seq<Node>): seq<string>
  {
    Gather(blocks, ContentOfBlock)
  }

  /** The element carries a CONTENT attribute. */
  predicate HasContent(w: Node)
  {
    w.Element? && "CONTENT" in w.attrs
  }

  /** A TextBlock the two walks agree on: all of it in the ALTO namespace, no
      TextBlock inside it, and a CONTENT attribute on every String of its
      TextLines. */
  ghost predicate PlainBlock(b: Node)
  {
    AllAlto(b) && BlocksInSeq(ChildrenOf(b)) == [] &&
    forall l :: l in TextLines(b) ==> forall w :: w in WordNodes(l) ==> HasContent(w)
  }

  /** Every selected TextBlock is plain. */
  ghost predicate PlainAlto(xml: Node)
  {
    forall b :: b in Blocks(xml) ==> PlainBlock(b)
  }

  /** A child without TextBlocks of a TextLine inside a block: its CONTENT
      when it is a String, nothing otherwise. */
  lemma StringKid(g: Node)
    requires AllAlto(g) && BlocksIn(g) == []
    requires HasKey(g, "String") ==> HasContent(g)
    ensures WordsIn(g, Ancestry(true, false, true)) == if HasKey(g, "String") then [Attr(g, "CONTENT")] else []
  {
    if g.Element? {
      var a := Ancestry(true, false, true);
      assert !IsAlto(g, "TextBlock") && BlocksInSeq(g.children) == [];
      QuietInSeq(g.children, ChildAncestry(g, a));
      assert HasKey(g, "String") <==> IsAlto(g, "String");
    }
  }

  /** Below a TextLine whose parent is a block: the CONTENT of each String. */
  lemma {:induction false} LineKids(kids: seq<Node>)
    requires forall g :: g in kids ==> AllAlto(g)
    requires BlocksInSeq(kids) == []
    requires forall g :: g in ChildrenWithKey(kids, "String") ==> HasContent(g)
    ensures WordsInSeq(kids, Ancestry(true, false, true)) == Contents(ChildrenWithKey(kids, "String"))
  {
    if kids != [] {
      var a := Ancestry(true, false, true);
      var init := kids[..|kids| - 1];
      var g := kids[|kids| - 1];
      var before := ChildrenWithKey(init, "String");
      var here := if HasKey(g, "String") then [g] else [];
      assert ChildrenWithKey(kids, "String") == before + here;
      assert BlocksInSeq(init) == [] && BlocksIn(g) == [] by {
        assert BlocksInSeq(kids) == BlocksInSeq(init) + BlocksIn(g);
      }
      assert WordsInSeq(init, a) == Contents(before) by {
        LineKids(init);
      }
      assert WordsIn(g, a) == if HasKey(g, "String") then [Attr(g, "CONTENT")] else [] by {
        assert g in kids;
        StringKid(g);
      }
      if HasKey(g, "String") {
        GatherStep(before, g, ContentOfWord);
      } else {
        assert before + here == before;
      }
    }
  }

  /** A child without TextBlocks of a block: the words of its Strings when it
      is a TextLine, nothing otherwise. */
  lemma LineKid(k: Node)
    requires AllAlto(k) && BlocksIn(k) == []
    requires HasKey(k, "TextLine") ==> forall w :: w in WordNodes(k) ==> HasContent(w)
    ensures WordsIn(k, Ancestry(false, true, false)) == if HasKey(k, "TextLine") then Contents(WordNodes(k)) else []
  {
    if k.Element? {
      var a := Ancestry(false, true, false);
      assert !IsAlto(k, "TextBlock") && BlocksInSeq(k.children) == [];
      assert forall g :: g in k.children ==> AllAlto(g);
      if HasKey(k, "TextLine") {
        assert IsAlto(k, "TextLine");
        LineKids(k.children);
      } else {
        assert !IsAlto(k, "TextLine");
        QuietInSeq(k.children, ChildAncestry(k, a));
      }
    }
  }

  /** Directly below a plain block: the words of its TextLine children. */
  lemma {:induction false} BlockKids(kids: seq<Node>)
    requires forall k :: k in kids ==> AllAlto(k)
    requires BlocksInSeq(kids) == []
    requires forall l :: l in ChildrenWithKey(kids, "TextLine") ==>
      forall w :: w in WordNodes(l) ==> HasContent(w)
    ensures WordsInSeq(kids, Ancestry(false, true, false)) == LinesContents(ChildrenWithKey(kids, "TextLine"))
  {
    if kids != [] {
      var a := Ancestry(false, true, false);
      var init := kids[..|kids| - 1];
      var k := kids[|kids| - 1];
      var before := ChildrenWithKey(init, "TextLine");
      var here := if HasKey(k, "TextLine") then [k] else [];
      assert ChildrenWithKey(kids, "TextLine") == before + here;
      assert BlocksInSeq(init) == [] && BlocksIn(k) == [] by {
        assert BlocksInSeq(kids) == BlocksInSeq(init) + BlocksIn(k);
      }
      assert WordsInSeq(init, a) == LinesContents(before) by {
        BlockKids(init);
      }
      assert WordsIn(k, a) == if HasKey(k, "TextLine") then Contents(WordNodes(k)) else [] by {
        assert k in kids;
        LineKid(k);
      }
      if HasKey(k, "TextLine") {
        GatherStep(before, k, ContentOfLine);
      } else {
        assert before + here == before;
      }
    }
  }

  /** Outside every block, the walk yields the block words of the blocks it
      passes, block after block. */
  lemma {:induction false} OutsideIn(n: Node, a: Ancestry)
    requires !a.parentBlock && !a.grandBlock
    requires forall b :: b in BlocksIn(n) ==> PlainBlock(b)
    ensures WordsIn(n, a) == BlockContents(BlocksIn(n))
    decreases n, 1
  {
    match n
    case Text(_) =>
    case Element(_, _, kids) =>
      if IsAlto(n, "TextBlock") {
        assert n in BlocksIn(n);
        BlockKids(kids);
        assert BlocksIn(n) == [n];
        GatherOne(n, ContentOfBlock);
      } else {
        OutsideInSeq(kids, ChildAncestry(n, a));
        assert BlocksIn(n) == BlocksInSeq(kids);
        assert WordsIn(n, a) == WordsInSeq(kids, ChildAncestry(n, a));
      }
  }

  lemma {:induction false} OutsideInSeq(kids: seq<Node>, a: Ancestry)
    requires !a.parentBlock && !a.grandBlock
    requires forall b :: b in BlocksInSeq(kids) ==> PlainBlock(b)
    ensures WordsInSeq(kids, a) == BlockContents(BlocksInSeq(kids))
    decreases kids, 0
  {
    if kids != [] {
      var init := kids[..|kids| - 1];
      var last := kids[|kids| - 1];
      OutsideInSeq(init, a);
      OutsideIn(last, a);
      GatherAppend(BlocksInSeq(init), BlocksIn(last), ContentOfBlock);
    }
  }

  lemma {:induction false} OutsideUnder(ps: seq<Node>)
    requires forall b :: b in BlocksUnder(ps) ==> PlainBlock(b)
    ensures WordsUnder(ps) == BlockContents(BlocksUnder(ps))
  {
    if ps != [] {
      var init := ps[..|ps| - 1];
      var last := ps[|ps| - 1];
      OutsideUnder(init);
      OutsideInSeq(ChildrenOf(last), Top);
      GatherAppend(BlocksUnder(init), BlocksInSeq(ChildrenOf(last)), ContentOfBlock);
    }
  }

  /** On a plain page the raw-text words are the words of the selected blocks,
      block by block, line by line. */
  lemma RawWordsAreBlockWords(xml: Node)
    requires PlainAlto(xml)
    ensures RawWords(xml) == BlockContents(Blocks(xml))
  {
    OutsideUnder(PrintSpaces(xml));
  }

  /* ---------------------------------------------------------------------
     The raw-text selection on every page
     --------------------------------------------------------------------- */

  /** `s` is an ALTO String element whose CONTENT is `c`. */
  predicate StringWith(s: Node, c: string)
  {
    IsAlto(s, "String") && HasContent(s) && s.attrs["CONTENT"] == c
  }

  /** `l` is an ALTO TextLine with a String child whose CONTENT is `c`. */
  ghost predicate LineWith(l: Node, c: string)
  {
    IsAlto(l, "TextLine") && exists s :: s in ChildrenOf(l) && StringWith(s, c)
  }

  /** `b` has a TextLine child with a String child whose CONTENT is `c`. */
  ghost predicate BlockWith(b: Node, c: string)
  {
    exists l :: l in ChildrenOf(b) && LineWith(l, c)
  }

  /** Where the walk from `n` with ancestry `a` finds the word `c`: at `n`
      itself when it is a String under a line under a block, in a String
      child of `n` when `n` is a line under a block, or in a block that is
      `n` or lies below it. */
  ghost predicate WalkFinds(n: Node, a: Ancestry, c: string)
  {
    (a.parentLine && a.grandBlock && StringWith(n, c)) ||
    (a.parentBlock && LineWith(n, c)) ||
    (exists b :: IsAlto(b, "TextBlock") && Reaches(b, n) && BlockWith(b, c))
  }

  lemma {:induction false} WordsInFinds(n: Node, a: Ancestry, c: string)
    ensures c in WordsIn(n, a) <==> WalkFinds(n, a, c)
    decreases n, 1
  {
    match n
    case Text(_) =>
      forall b | IsAlto(b, "TextBlock")
        ensures !Reaches(b, n)
      {
      }
    case Element(_, attrs, kids) =>
      WordsInSeqFinds(kids, ChildAncestry(n, a), c);
      KidsFind(n, a, c);
  }

  lemma {:induction false} WordsInSeqFinds(kids: seq<Node>, a: Ancestry, c: string)
    ensures c in WordsInSeq(kids, a) <==> exists k :: k in kids && WalkFinds(k, a, c)
    decreases kids, 0
  {
    if kids != [] {
      var init := kids[..|kids| - 1];
      var last := kids[|kids| - 1];
      WordsInSeqFinds(init, a, c);
      WordsInFinds(last, a, c);
      assert kids == init + [last];
      assert WordsInSeq(kids, a) == WordsInSeq(init, a) + WordsIn(last, a);
      FindsSnoc(init, last, a, c);
    }
  }

  lemma FindsSnoc(init: seq<Node>, last: Node, a: Ancestry, c: string)
    ensures (exists k :: k in init + [last] && WalkFinds(k, a, c)) <==>
      (exists k :: k in init && WalkFinds(k, a, c)) || WalkFinds(last, a, c)
  {
    if exists k :: k in init && WalkFinds(k, a, c) {
      var k :| k in init && WalkFinds(k, a, c);
      assert k in init + [last];
    }
    if WalkFinds(last, a, c) {
      assert last in init + [last];
    }
    if exists k :: k in init + [last] && WalkFinds(k, a, c) {
      var k :| k in init + [last] && WalkFinds(k, a, c);
      if k != last {
        assert k in init;
      }
    }
  }

  /** What the children of an element find, seen from the element. */
  lemma KidsFind(n: Node, a: Ancestry, c: string)
    requires n.Element?
    ensures (exists k :: k in n.children && WalkFinds(k, ChildAncestry(n, a), c)) <==>
      (a.parentBlock && LineWith(n, c)) ||
      (exists b :: IsAlto(b, "TextBlock") && Reaches(b, n) && BlockWith(b, c))
  {
    var inner := ChildAncestry(n, a);
    if exists k :: k in n.children && WalkFinds(k, inner, c) {
      var k :| k in n.children && WalkFinds(k, inner, c);
      KidFinds(n, a, k, c);
    }
    if a.parentBlock && LineWith(n, c) {
      LineFindsKid(n, a, c);
    }
    if exists b :: IsAlto(b, "TextBlock") && Reaches(b, n) && BlockWith(b, c) {
      var b :| IsAlto(b, "TextBlock") && Reaches(b, n) && BlockWith(b, c);
      BlockFindsKid(n, a, b, c);
    }
  }

  /** A word a child finds is found by its parent. */
  lemma KidFinds(n: Node, a: Ancestry, k: Node, c: string)
    requires n.Element? && k in n.children && WalkFinds(k, ChildAncestry(n, a), c)
    ensures (a.parentBlock && LineWith(n, c)) ||
      (exists b :: IsAlto(b, "TextBlock") && Reaches(b, n) && BlockWith(b, c))
  {
    var inner := ChildAncestry(n, a);
    if inner.parentLine && inner.grandBlock && StringWith(k, c) {
      assert LineWith(n, c);
    } else if inner.parentBlock && LineWith(k, c) {
      assert BlockWith(n, c) && Reaches(n, n);
    } else {
      var b :| IsAlto(b, "TextBlock") && Reaches(b, k) && BlockWith(b, c);
      assert Reaches(b, n);
    }
  }

  /** A line under a block finds the words of its Strings through them. */
  lemma LineFindsKid(n: Node, a: Ancestry, c: string)
    requires n.Element? && a.parentBlock && LineWith(n, c)
    ensures exists k :: k in n.children && WalkFinds(k, ChildAncestry(n, a), c)
  {
    var s :| s in ChildrenOf(n) && StringWith(s, c);
    assert WalkFinds(s, ChildAncestry(n, a), c);
  }

  /** A block that is `n` or lies below it is reached through a child. */
  lemma BlockFindsKid(n: Node, a: Ancestry, b: Node, c: string)
    requires n.Element? && IsAlto(b, "TextBlock") && Reaches(b, n) && BlockWith(b, c)
    ensures exists k :: k in n.children && WalkFinds(k, ChildAncestry(n, a), c)
  {
    var inner := ChildAncestry(n, a);
    if b == n {
      var l :| l in ChildrenOf(n) && LineWith(l, c);
      assert WalkFinds(l, inner, c);
    } else {
      var k :| k in n.children && (k == b || Below(b, k));
      assert Reaches(b, k);
      assert WalkFinds(k, inner, c);
    }
  }

  /** Below a PrintSpace the walk finds exactly the words of the blocks. */
  lemma TopFinds(kids: seq<Node>, c: string)
    ensures (exists k :: k in kids && WalkFinds(k, Top, c)) <==>
      exists b :: b in BlocksInSeq(kids) && BlockWith(b, c)
  {
    if exists k :: k in kids && WalkFinds(k, Top, c) {
      var k :| k in kids && WalkFinds(k, Top, c);
      var b :| IsAlto(b, "TextBlock") && Reaches(b, k) && BlockWith(b, c);
      TopBlock(kids, k, b);
    }
    if exists b :: b in BlocksInSeq(kids) && BlockWith(b, c) {
      var b :| b in BlocksInSeq(kids) && BlockWith(b, c);
      BlocksInSeqHas(kids, b);
      var k :| k in kids && (k == b || Below(b, k));
      assert WalkFinds(k, Top, c);
    }
  }

  lemma TopBlock(kids: seq<Node>, k: Node, b: Node)
    requires k in kids && IsAlto(b, "TextBlock") && Reaches(b, k)
    ensures b in BlocksInSeq(kids)
  {
    BlocksInSeqHas(kids, b);
  }

  lemma {:induction false} WordsUnderFinds(ps: seq<Node>, c: string)
    ensures c in WordsUnder(ps) <==> exists b :: b in BlocksUnder(ps) && BlockWith(b, c)
  {
    if ps != [] {
      var init := ps[..|ps| - 1];
      var last := ps[|ps| - 1];
      WordsUnderFinds(init, c);
      WordsInSeqFinds(ChildrenOf(last), Top, c);
      TopFinds(ChildrenOf(last), c);
      var here := BlocksInSeq(ChildrenOf(last));
      assert BlocksUnder(ps) == BlocksUnder(init) + here;
      if exists b :: b in BlocksUnder(init) && BlockWith(b, c) {
        var b :| b in BlocksUnder(init) && BlockWith(b, c);
        assert b in BlocksUnder(ps);
      }
      if exists b :: b in here && BlockWith(b, c) {
        var b :| b in here && BlockWith(b, c);
        assert b in BlocksUnder(ps);
      }
    }
  }

  /** The raw-text selection on every page: a word is selected exactly when
      it is the CONTENT of an ALTO String child of an ALTO TextLine child of
      one of the selected blocks (nested blocks, elements outside the ALTO
      namespace and Strings without CONTENT included). */
  lemma RawWordsAreBlockStrings(xml: Node)
    ensures forall c :: c in RawWords(xml) <==> exists b :: b in Blocks(xml) && BlockWith(b, c)
  {
    forall c
      ensures c in RawWords(xml) <==> exists b :: b in Blocks(xml) && BlockWith(b, c)
    {
      WordsUnderFinds(PrintSpaces(xml), c);
    }
  }

  function TextOfWord(w: Word): seq<string>
  {
    [w.text]
  }

  function WordTexts(words: seq<Word>): seq<string>
  {
    Gather(words, TextOfWord)
  }

  function TextsOfLine(l: Line): seq<string>
  {
    WordTexts(l.words)
  }

  function LineWords(lines: seq<Line>): seq<string>
  {
    Gather(lines, TextsOfLine)
  }

  function TextsOfBlock(b: Block): seq<string>
  {
    LineWords(b.lines)
  }

  /** The text of every `w` of a MiniOCR tree, in document order. */
  function DocWords(blocks: seq<Block>): seq<string>
  {
    Gather(blocks, TextsOfBlock)
  }

  /** Every word followed by one space. */
  function Spaced(ws: seq<string>): (r: seq<string>)
    ensures |r| == |ws| && forall i :: 0 <= i < |ws| ==> r[i] == ws[i] + " "
  {
    if ws == [] then [] else Spaced(ws[..|ws| - 1]) + [ws[|ws| - 1] + " "]
  }

  lemma SpacedAppend(xs: seq<string>, ys: seq<string>)
    ensures Spaced(xs + ys) == Spaced(xs) + Spaced(ys)
  {
  }

  lemma {:induction false} WordTextsOf(words: seq<Node>)
    ensures WordTexts(WordElements(words)) == Spaced(Contents(words))
  {
    if words != [] {
      var init := words[..|words| - 1];
      var last := words[|words| - 1];
      calc {
        WordTexts(WordElements(words));
        { assert words == init + [last]; WordElementsStep(init, last); }
        Gather(WordElements(init) + [WordElement(last)], TextOfWord);
        { GatherStep(WordElements(init), WordElement(last), TextOfWord); }
        WordTexts(WordElements(init)) + [Attr(last, "CONTENT") + " "];
        { WordTextsOf(init); }
        Spaced(Contents(init)) + [Attr(last, "CONTENT") + " "];
        { SpacedAppend(Contents(init), [Attr(last, "CONTENT")]); }
        Spaced(Contents(init) + [Attr(last, "CONTENT")]);
        { GatherStep(init, last, ContentOfWord); assert words == init + [last]; }
        Spaced(Contents(words));
      }
    }
  }

  lemma {:induction false} LineWordsOf(lines: seq<Node>)
    ensures LineWords(LineElements(lines)) == Spaced(LinesContents(lines))
  {
    if lines != [] {
      var init := lines[..|lines| - 1];
      var last := lines[|lines| - 1];
      calc {
        LineWords(LineElements(lines));
        { assert lines == init + [last]; LineElementsStep(init, last); }
        Gather(LineElements(init) + [LineElement(last)], TextsOfLine);
        { GatherStep(LineElements(init), LineElement(last), TextsOfLine); }
        LineWords(LineElements(init)) + WordTexts(WordElements(WordNodes(last)));
        { LineWordsOf(init); WordTextsOf(WordNodes(last)); }
        Spaced(LinesContents(init)) + Spaced(Contents(WordNodes(last)));
        { SpacedAppend(LinesContents(init), Contents(WordNodes(last))); }
        Spaced(LinesContents(init) + Contents(WordNodes(last)));
        { GatherStep(init, last, ContentOfLine); assert lines == init + [last]; }
        Spaced(LinesContents(lines));
      }
    }
  }

  lemma BlockElementsSnoc(blocks: seq<Node>, b: Node)
    ensures BlockElements(blocks + [b]) == BlockElements(blocks) + [BlockElement(b)]
  {
    assert (blocks + [b])[..|blocks|] == blocks;
  }

  lemma {:induction false} DocWordsOf(blocks: seq<Node>)
    ensures DocWords(MiniOcrDoc(blocks).blocks) == Spaced(BlockContents(blocks))
  {
    if blocks != [] {
      var init := blocks[..|blocks| - 1];
      var last := blocks[|blocks| - 1];
      calc {
        DocWords(BlockElements(blocks));
        { assert blocks == init + [last]; BlockElementsSnoc(init, last); }
        Gather(BlockElements(init) + [BlockElement(last)], TextsOfBlock);
        { GatherStep(BlockElements(init), BlockElement(last), TextsOfBlock); }
        DocWords(BlockElements(init)) + LineWords(LineElements(TextLines(last)));
        { DocWordsOf(init); LineWordsOf(TextLines(last)); }
        Spaced(BlockContents(init)) + Spaced(LinesContents(TextLines(last)));
        { SpacedAppend(BlockContents(init), LinesContents(TextLines(last))); }
        Spaced(BlockContents(init) + LinesContents(TextLines(last)));
        { GatherStep(init, last, ContentOfBlock); assert blocks == init + [last]; }
        Spaced(BlockContents(blocks));
      }
    }
  }

  /** The cross property: on a plain page the `w` texts of the MiniOCR tree,
      read in order and with their trailing space removed, are exactly the
      words of the raw text. */
  lemma MiniOcrWordsAreRawWords(xml: Node)
    requires PlainAlto(xml)
    ensures var words := DocWords(MiniOcrDoc(Blocks(xml)).blocks);
      |words| == |RawWords(xml)| &&
      forall i :: 0 <= i < |words| ==> words[i] == RawWords(xml)[i] + " "
  {
    RawWordsAreBlockWords(xml);
    DocWordsOf(Blocks(xml));
  }
}
