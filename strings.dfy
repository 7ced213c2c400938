/** The PHP string primitives the core relies on: `implode`, its inverse
    `explode`, and `strpos`. */
module Strings {
  import opened Wrappers

  /** `implode(sep, ws)`: the words with one separator between neighbours. */
  function Join(ws: seq<string>, sep: char): (r: string)
    ensures |ws| == 0 ==> r == ""
    ensures |ws| > 0 ==> |r| == TotalLength(ws) + |ws| - 1
  {
    if |ws| == 0 then ""
    else if |ws| == 1 then ws[0]
    else ws[0] + [sep] + Join(ws[1..], sep)
  }

  /** The sum of the lengths of the words. */
  function TotalLength(ws: seq<string>): nat
  {
    if ws == [] then 0 else |ws[0]| + TotalLength(ws[1..])
  }

  /** Where word `i` begins in the join: the words before it, each followed
      by one separator. */
  function WordStart(ws: seq<string>, i: nat): nat
    requires i <= |ws|
  {
    TotalLength(ws[..i]) + i
  }

  lemma WordStartShift(ws: seq<string>, i: nat)
    requires 0 < i <= |ws|
    ensures WordStart(ws, i) == |ws[0]| + 1 + WordStart(ws[1..], i - 1)
  {
    assert ws[..i][1..] == ws[1..][..i - 1];
  }

  /** The layout of `implode`: every word stands at its start offset, and the
      separator stands just before every word but the first. */
  lemma {:induction false} JoinLayout(ws: seq<string>, sep: char)
    ensures forall i :: 0 <= i < |ws| ==> OccursAt(Join(ws, sep), ws[i], WordStart(ws, i))
    ensures forall i :: 0 < i < |ws| ==> OccursAt(Join(ws, sep), [sep], WordStart(ws, i) - 1)
  {
    if |ws| == 1 {
      assert ws[..0] == [];
      assert Join(ws, sep)[0..|ws[0]|] == ws[0];
    } else if |ws| > 1 {
      var head := ws[0] + [sep];
      var t := Join(ws[1..], sep);
      JoinLayout(ws[1..], sep);
      assert Join(ws, sep) == head + t;
      forall i | 0 <= i < |ws|
        ensures OccursAt(head + t, ws[i], WordStart(ws, i))
      {
        if i == 0 {
          assert ws[..0] == [];
          assert (head + t)[0..|ws[0]|] == ws[0];
        } else {
          WordStartShift(ws, i);
          assert ws[i] == ws[1..][i - 1];
          ShiftOccurs(head, t, ws[i], WordStart(ws[1..], i - 1));
        }
      }
      forall i | 0 < i < |ws|
        ensures OccursAt(head + t, [sep], WordStart(ws, i) - 1)
      {
        WordStartShift(ws, i);
        if i == 1 {
          assert ws[1..][..0] == [];
          assert (head + t)[|ws[0]|..|ws[0]| + 1] == [sep];
        } else {
          ShiftOccurs(head, t, [sep], WordStart(ws[1..], i - 1) - 1);
        }
      }
    }
  }

  /** An occurrence in `t` is one in `p + t`, shifted by `|p|`. */
  lemma ShiftOccurs(p: string, t: string, pat: string, k: nat)
    requires OccursAt(t, pat, k)
    ensures OccursAt(p + t, pat, |p| + k)
  {
    assert (p + t)[|p| + k..|p| + k + |pat|] == t[k..k + |pat|];
  }

  /** `explode(sep, s)`: the maximal runs of `s` between separators
      (always at least one field). */
  function Split(s: string, sep: char): (r: seq<string>)
    ensures |r| > 0
  {
    if s == [] then [""]
    else if s[0] == sep then [""] + Split(s[1..], sep)
    else
      var rest := Split(s[1..], sep);
      [[s[0]] + rest[0]] + rest[1..]
  }

  /** A field without the separator is split off whole, whatever follows it. */
  lemma {:induction false} SplitField(w: string, sep: char, rest: string)
    requires sep !in w
    ensures Split(w + [sep] + rest, sep) == [w] + Split(rest, sep)
  {
    if w == [] {
      assert w + [sep] + rest == [sep] + rest;
    } else {
      var s := w + [sep] + rest;
      assert s[0] == w[0] && s[0] != sep;
      assert s[1..] == w[1..] + [sep] + rest;
      SplitField(w[1..], sep, rest);
      assert w == [w[0]] + w[1..];
    }
  }

  lemma {:induction false} SplitNoSep(w: string, sep: char)
    requires sep !in w
    ensures Split(w, sep) == [w]
  {
    if w != [] {
      assert w[0] != sep;
      SplitNoSep(w[1..], sep);
      assert w == [w[0]] + w[1..];
    }
  }

  /** Splitting a join gives the words back, provided none of them holds the separator. */
  lemma {:induction false} SplitJoin(ws: seq<string>, sep: char)
    requires |ws| > 0
    requires forall i :: 0 <= i < |ws| ==> sep !in ws[i]
    ensures Split(Join(ws, sep), sep) == ws
  {
    if |ws| == 1 {
      SplitNoSep(ws[0], sep);
    } else {
      SplitField(ws[0], sep, Join(ws[1..], sep));
      SplitJoin(ws[1..], sep);
      assert [ws[0]] + ws[1..] == ws;
    }
  }

  /** Joining the fields of a split gives the string back.  With `SplitJoin`
      this makes `Split` an exact inverse of `Join` on words without the
      separator, so stating the raw text through `Split` loses nothing. */
  lemma {:induction false} JoinSplit(s: string, sep: char)
    ensures Join(Split(s, sep), sep) == s
  {
    if s != [] {
      var rest := Split(s[1..], sep);
      JoinSplit(s[1..], sep);
      if s[0] == sep {
        var r := [""] + rest;
        assert r[1..] == rest;
        assert Join(r, sep) == [sep] + Join(rest, sep);
        assert s == [sep] + s[1..];
      } else {
        JoinPrepend(s[0], rest, sep);
        assert s == [s[0]] + s[1..];
      }
    }
  }

  /** A character put in front of the first word is put in front of the join. */
  lemma JoinPrepend(c: char, ws: seq<string>, sep: char)
    requires |ws| > 0
    ensures Join([[c] + ws[0]] + ws[1..], sep) == [c] + Join(ws, sep)
  {
    var r := [[c] + ws[0]] + ws[1..];
    assert r[0] == [c] + ws[0] && r[1..] == ws[1..];
    if |ws| > 1 {
      assert [c] + ws[0] + [sep] + Join(ws[1..], sep) == [c] + (ws[0] + [sep] + Join(ws[1..], sep));
    }
  }

  /** `s` begins with `p`. */
  predicate StartsWith(s: string, p: string)
  {
    |p| <= |s| && s[..|p|] == p
  }

  /** `pat` occurs in `s` starting at index `k`. */
  predicate OccursAt(s: string, pat: string, k: nat)
  {
    k <= |s| && StartsWith(s[k..], pat)
  }

  /** An occurrence in a prefix of `s` is an occurrence in `s`. */
  lemma OccursInPrefix(s: string, pat: string, k: nat, j: nat)
    requires k <= |s|
    ensures OccursAt(s[..k], pat, j) ==> OccursAt(s, pat, j)
  {
    if j + |pat| <= k {
      assert s[..k][j..j + |pat|] == s[j..j + |pat|];
    }
  }

  predicate Contains(s: string, pat: string)
  {
    exists k: nat | k <= |s| :: OccursAt(s, pat, k)
  }

  /** `strpos(s, pat)` with `false` as None: the first occurrence of `pat`. */
  function Find(s: string, pat: string): (r: Option<nat>)
    ensures r.Some? ==> OccursAt(s, pat, r.value)
    ensures r.Some? ==> forall j: nat :: j < r.value ==> !OccursAt(s, pat, j)
    ensures r.None? ==> !Contains(s, pat)
  {
    FindFrom(s, pat, 0)
  }

  function FindFrom(s: string, pat: string, from: nat): (r: Option<nat>)
    requires forall j: nat :: j < from ==> !OccursAt(s, pat, j)
    ensures r.Some? ==> from <= r.value && OccursAt(s, pat, r.value)
    ensures r.Some? ==> forall j: nat :: j < r.value ==> !OccursAt(s, pat, j)
    ensures r.None? ==> forall j: nat :: !OccursAt(s, pat, j)
    decreases |s| - from
  {
    if from + |pat| > |s| then None
    else if OccursAt(s, pat, from) then Some(from)
    else FindFrom(s, pat, from + 1)
  }
}
