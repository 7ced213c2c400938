/** The page-URL template of the document controller
    (`DocumentController::getUrlTemplate`): two URLs that differ only in the
    page, double-page and page-grid arguments are compared character by
    character, and every character where they differ becomes a placeholder
    that client code later fills in. */
module UrlTemplate {
  import opened Wrappers
  import opened Strings

  /** The query parameter the URL builder appends and the template drops. */
  const CHashMarker: string := "&cHash="

  /** The cut in `$make`: everything before the first `&cHash=`, or the whole
      URL when it has none. */
  function StripCHash(url: string): (r: string)
    ensures r <= url
    ensures Contains(url, CHashMarker) ==> OccursAt(url, CHashMarker, |r|)
    ensures !Contains(url, CHashMarker) ==> r == url
    ensures !Contains(r, CHashMarker)
  {
    match Find(url, CHashMarker)
    case None => url
    case Some(k) =>
      var r := url[..k];
      assert !Contains(r, CHashMarker) by {
        forall j: nat | j <= |r|
          ensures !OccursAt(r, CHashMarker, j)
        {
          OccursInPrefix(url, CHashMarker, k, j);
        }
      }
      assert Contains(url, CHashMarker) by {
        assert OccursAt(url, CHashMarker, k);
      }
      r
  }

  /** `$make($page, $double, $pagegrid)`, with the URL builder chain given
      as the function `build`. */
  function Make(build: (nat, nat, nat) -> string, page: nat, double: nat, pagegrid: nat): (r: string)
    ensures r <= build(page, double, pagegrid)
    ensures !Contains(r, CHashMarker)
    ensures Contains(build(page, double, pagegrid), CHashMarker) ==>
      OccursAt(build(page, double, pagegrid), CHashMarker, |r|)
    ensures !Contains(build(page, double, pagegrid), CHashMarker) ==> r == build(page, double, pagegrid)
  {
    StripCHash(build(page, double, pagegrid))
  }

  /** One position of the template: a copied character or a placeholder. */
  datatype Piece = Keep(c: char) | PageNo | DoublePage | PageGrid

  /** The piece for position `i` of `a`.  A position past the end of `b`
      reads as the empty string in PHP, which never equals a character, so it
      counts as a difference. */
  function PieceAt(a: string, b: string, i: nat): Piece
    requires i < |a|
  {
    if i < |b| && a[i] == b[i] then Keep(a[i])
    else if a[i] == '2' then PageNo
    else if a[i] == '1' then DoublePage
    else PageGrid
  }

  /** The pieces of the template of `a` against `b`, one per character of `a`. */
  function Pieces(a: string, b: string): (ps: seq<Piece>)
    ensures |ps| == |a|
  {
    seq(|a|, i requires 0 <= i < |a| => PieceAt(a, b, i))
  }

  /** A character of the first URL is copied exactly where the second URL has
      the same character; every other position holds the placeholder its
      character selects: PAGE_NO for '2', DOUBLE_PAGE for '1', PAGE_GRID
      otherwise.  So there is one placeholder per differing position. */
  lemma PiecesMarkDifferences(a: string, b: string)
    ensures var ps := Pieces(a, b);
      |ps| == |a| &&
      (forall i :: 0 <= i < |a| ==> (ps[i] == Keep(a[i]) <==> i < |b| && a[i] == b[i])) &&
      (forall i :: 0 <= i < |a| ==> (ps[i].Keep? <==> i < |b| && a[i] == b[i])) &&
      (forall i :: 0 <= i < |a| ==> (ps[i] == PageNo <==> !(i < |b| && a[i] == b[i]) && a[i] == '2')) &&
      (forall i :: 0 <= i < |a| ==> (ps[i] == DoublePage <==> !(i < |b| && a[i] == b[i]) && a[i] == '1')) &&
      (forall i :: 0 <= i < |a| ==>
        (ps[i] == PageGrid <==> !(i < |b| && a[i] == b[i]) && a[i] != '2' && a[i] != '1'))
  {
  }

  /** The text of a piece, with `page`, `double` and `grid` for the three
      placeholders. */
  function PieceText(p: Piece, page: string, double: string, grid: string): string
  {
    match p
    case Keep(c) => [c]
    case PageNo => page
    case DoublePage => double
    case PageGrid => grid
  }

  /** The pieces written out, the placeholders replaced by the given texts. */
  function Fill(ps: seq<Piece>, page: string, double: string, grid: string): string
  {
    if ps == [] then ""
    else Fill(ps[..|ps| - 1], page, double, grid) + PieceText(ps[|ps| - 1], page, double, grid)
  }

  /** The template as the controller writes it. */
  function Render(ps: seq<Piece>): string
  {
    Fill(ps, "PAGE_NO", "DOUBLE_PAGE", "PAGE_GRID")
  }

  function Template(a: string, b: string): string
  {
    Render(Pieces(a, b))
  }

  /** `getUrlTemplate`: build the URLs for page 2 / double 1 / grid 0 and for
      page 3 / double 0 / grid 1, and write the template of the first against
      the second. */
  method GetUrlTemplate(build: (nat, nat, nat) -> string) returns (result: string)
    ensures result == Template(Make(build, 2, 1, 0), Make(build, 3, 0, 1))
  {
    var a := Make(build, 2, 1, 0);
    var b := Make(build, 3, 0, 1);
    result := TemplateOf(a, b);
  }

  /** The loop of `getUrlTemplate`: copy the runs where the URLs agree and put
      a placeholder at each position where they differ. */
  method TemplateOf(a: string, b: string) returns (result: string)
    ensures result == Template(a, b)
  {
    var lastIdx := 0;
    result := "";
    for i := 0 to |a|
      invariant lastIdx <= i
      invariant result == TemplatePrefix(a, b, lastIdx)
      invariant AgreeRun(a, b, lastIdx, i)
    {
      if !(i < |b| && a[i] == b[i]) {
        KeptRun(a, b, lastIdx, i);
        result := result + a[lastIdx..i];
        lastIdx := i + 1;
        var placeholder;
        if a[i] == '2' {
          placeholder := "PAGE_NO";
        } else if a[i] == '1' {
          placeholder := "DOUBLE_PAGE";
        } else {
          placeholder := "PAGE_GRID";
        }
        result := result + placeholder;
      }
    }
    TemplateTail(a, b, lastIdx);
    result := result + a[lastIdx..];
  }

  /** The template of the first `n` positions. */
  function TemplatePrefix(a: string, b: string, n: nat): string
    requires n <= |a|
  {
    if n == 0 then ""
    else TemplatePrefix(a, b, n - 1) + PieceText(PieceAt(a, b, n - 1), "PAGE_NO", "DOUBLE_PAGE", "PAGE_GRID")
  }

  /** The URLs agree at every position from `lo` up to `hi`. */
  predicate AgreeRun(a: string, b: string, lo: nat, hi: nat)
  {
    forall j: nat :: lo <= j < hi ==> Agrees(a, b, j)
  }

  /** Both URLs have position `j` and hold the same character there. */
  predicate Agrees(a: string, b: string, j: nat)
  {
    j < |a| && j < |b| && a[j] == b[j]
  }

  /** A run of agreeing positions is copied as it stands. */
  lemma {:induction false} KeptRun(a: string, b: string, lo: nat, hi: nat)
    requires lo <= hi <= |a|
    requires AgreeRun(a, b, lo, hi)
    ensures TemplatePrefix(a, b, hi) == TemplatePrefix(a, b, lo) + a[lo..hi]
  {
    if lo < hi {
      KeptRun(a, b, lo, hi - 1);
      assert PieceAt(a, b, hi - 1) == Keep(a[hi - 1]) by {
        assert Agrees(a, b, hi - 1);
      }
      assert a[lo..hi] == a[lo..hi - 1] + [a[hi - 1]];
    }
  }

  /** The run after the last difference completes the template. */
  lemma TemplateTail(a: string, b: string, lo: nat)
    requires lo <= |a|
    requires AgreeRun(a, b, lo, |a|)
    ensures TemplatePrefix(a, b, lo) + a[lo..] == Template(a, b)
  {
    KeptRun(a, b, lo, |a|);
    TemplatePrefixRender(a, b, |a|);
    assert Pieces(a, b)[..|a|] == Pieces(a, b);
  }

  lemma {:induction false} TemplatePrefixRender(a: string, b: string, n: nat)
    requires n <= |a|
    ensures TemplatePrefix(a, b, n) == Render(Pieces(a, b)[..n])
  {
    if n > 0 {
      TemplatePrefixRender(a, b, n - 1);
      RenderStep(a, b, n - 1);
    }
  }

  /** One more position of the template. */
  lemma RenderStep(a: string, b: string, i: nat)
    requires i < |a|
    ensures Render(Pieces(a, b)[..i + 1]) == Render(Pieces(a, b)[..i]) + PieceText(PieceAt(a, b, i), "PAGE_NO", "DOUBLE_PAGE", "PAGE_GRID")
  {
    var ps := Pieces(a, b);
    assert ps[..i + 1][..i] == ps[..i];
  }

  /* ---------------------------------------------------------------------
     Properties of the template
     --------------------------------------------------------------------- */

  /** Filling the placeholders back in: when `c` agrees with `a` wherever `a`
      and `b` agree, and holds `page`, `double` or `grid` where they differ (by
      the character `a` has there), the filled template is `c`. */
  lemma {:induction false} FillPrefix(a: string, b: string, c: string, page: char, double: char, grid: char, n: nat)
    requires n <= |a| == |c|
    requires forall i :: 0 <= i < |a| && i < |b| && a[i] == b[i] ==> c[i] == a[i]
    requires forall i :: 0 <= i < |a| && !(i < |b| && a[i] == b[i]) ==>
      c[i] == (if a[i] == '2' then page else if a[i] == '1' then double else grid)
    ensures Fill(Pieces(a, b)[..n], [page], [double], [grid]) == c[..n]
  {
    if n > 0 {
      var ps := Pieces(a, b);
      FillPrefix(a, b, c, page, double, grid, n - 1);
      assert ps[..n][..n - 1] == ps[..n - 1];
      assert c[..n] == c[..n - 1] + [c[n - 1]];
    }
  }

  lemma FillBack(a: string, b: string, c: string, page: char, double: char, grid: char)
    requires |a| == |c|
    requires forall i :: 0 <= i < |a| && i < |b| && a[i] == b[i] ==> c[i] == a[i]
    requires forall i :: 0 <= i < |a| && !(i < |b| && a[i] == b[i]) ==>
      c[i] == (if a[i] == '2' then page else if a[i] == '1' then double else grid)
    ensures Fill(Pieces(a, b), [page], [double], [grid]) == c
  {
    FillPrefix(a, b, c, page, double, grid, |a|);
    assert Pieces(a, b)[..|a|] == Pieces(a, b);
    assert c[..|a|] == c;
  }

  /** The template filled with page 2, double 1 and grid 0 gives back the first
      URL, when each of its differing characters is one of those arguments. */
  lemma FillGivesFirstUrl(a: string, b: string)
    requires forall i :: 0 <= i < |a| && !(i < |b| && a[i] == b[i]) ==> a[i] in {'2', '1', '0'}
    ensures Fill(Pieces(a, b), "2", "1", "0") == a
  {
    FillBack(a, b, a, '2', '1', '0');
  }

  /** The template filled with page 3, double 0 and grid 1 gives back the second
      URL, when the two URLs have the same length and differ exactly in those
      arguments. */
  lemma FillGivesSecondUrl(a: string, b: string)
    requires |a| == |b|
    requires forall i :: 0 <= i < |a| && a[i] != b[i] ==>
      b[i] == (if a[i] == '2' then '3' else if a[i] == '1' then '0' else '1')
    ensures Fill(Pieces(a, b), "3", "0", "1") == b
  {
    FillBack(a, b, b, '3', '0', '1');
  }

  /** The number of pieces equal to `p`. */
  function Count(ps: seq<Piece>, p: Piece): nat
  {
    if ps == [] then 0
    else Count(ps[..|ps| - 1], p) + (if ps[|ps| - 1] == p then 1 else 0)
  }

  /** Each PAGE_NO adds six characters to the URL, each DOUBLE_PAGE ten and
      each PAGE_GRID eight; copied characters add nothing. */
  lemma {:induction false} RenderLength(ps: seq<Piece>)
    ensures |Render(ps)| == |ps| + 6 * Count(ps, PageNo) + 10 * Count(ps, DoublePage) + 8 * Count(ps, PageGrid)
  {
    if ps != [] {
      RenderLength(ps[..|ps| - 1]);
    }
  }

  /** A placeholder in the pieces makes the rendering longer than the pieces. */
  lemma {:induction false} RenderLonger(ps: seq<Piece>, i: nat)
    requires i < |ps| && !ps[i].Keep?
    ensures |Render(ps)| > |ps|
  {
    var init := ps[..|ps| - 1];
    RenderLength(init);
    if i < |ps| - 1 {
      assert init[i] == ps[i];
      RenderLonger(init, i);
    }
  }

  /** The template is the first URL itself exactly when the two URLs agree at
      every position of the first. */
  lemma TemplateIsUrlIffAgree(a: string, b: string)
    ensures Template(a, b) == a <==> forall i :: 0 <= i < |a| ==> i < |b| && a[i] == b[i]
  {
    PiecesMarkDifferences(a, b);
    if forall i :: 0 <= i < |a| ==> i < |b| && a[i] == b[i] {
      FillBack(a, b, a, 'x', 'x', 'x');
      var ps := Pieces(a, b);
      assert forall i :: 0 <= i < |ps| ==> ps[i].Keep?;
      AllKeptFill(ps, "PAGE_NO", "DOUBLE_PAGE", "PAGE_GRID", "x", "x", "x");
    } else {
      var i :| 0 <= i < |a| && !(i < |b| && a[i] == b[i]);
      RenderLonger(Pieces(a, b), i);
    }
  }

  /** Without placeholders the texts given for them do not matter. */
  lemma {:induction false} AllKeptFill(ps: seq<Piece>, p1: string, d1: string, g1: string,
                                       p2: string, d2: string, g2: string)
    requires forall i :: 0 <= i < |ps| ==> ps[i].Keep?
    ensures Fill(ps, p1, d1, g1) == Fill(ps, p2, d2, g2)
  {
    if ps != [] {
      AllKeptFill(ps[..|ps| - 1], p1, d1, g1, p2, d2, g2);
    }
  }
}
