/** Character escaping with XML entity references, and its inverse.

    Three escapers of the core are one function with different sets of
    special characters: PHP's `htmlspecialchars` (with its PHP 8.1 default
    flags ENT_QUOTES | ENT_SUBSTITUTE, so both quote characters are escaped),
    the serializer's escaping of text content, and its escaping of attribute
    values.  `Decode` resolves the references the parser resolves. */
module Entities {
  import opened Strings

  /** The characters `htmlspecialchars` replaces. */
  const HtmlSpecial: set<char> := {'&', '<', '>', '"', '\''}
  /** The characters the serializer escapes in text content. */
  const TextSpecial: set<char> := {'&', '<', '>'}
  /** The characters the serializer escapes in attribute values. */
  const AttrSpecial: set<char> := {'&', '<', '>', '"'}

  /** The entity reference written for a special character. */
  function Entity(c: char): string
  {
    match c
    case '&' => "&amp;"
    case '<' => "&lt;"
    case '>' => "&gt;"
    case '"' => "&quot;"
    case '\'' => "&#039;"
    case _ => [c]
  }

  function Escape(s: string, special: set<char>): (r: string)
    ensures '<' in special ==> '<' !in r
    ensures '>' in special ==> '>' !in r
    ensures '"' in special ==> '"' !in r
    ensures '\'' in special ==> '\'' !in r
  {
    if s == [] then ""
    else
      EntityClean(s[0]);
      (if s[0] in special then Entity(s[0]) else [s[0]]) + Escape(s[1..], special)
  }

  /** A string without special characters is left as it is. */
  lemma {:induction false} EscapePlain(s: string, special: set<char>)
    requires forall i :: 0 <= i < |s| ==> s[i] !in special
    ensures Escape(s, special) == s
  {
    if s != [] {
      EscapePlain(s[1..], special);
      assert s == [s[0]] + s[1..];
    }
  }

  /** No entity reference holds a markup character other than the one it
      stands for. */
  lemma EntityClean(c: char)
    ensures '<' !in Entity(c) || c == '<'
    ensures '>' !in Entity(c) || c == '>'
    ensures '"' !in Entity(c) || c == '"'
    ensures '\'' !in Entity(c) || c == '\''
  {
  }

  /** `htmlspecialchars(s)`: no markup character is left, every ampersand
      begins a reference, a string without markup characters is unchanged,
      and resolving the references gives `s` back. */
  function HtmlSpecialChars(s: string): (r: string)
    ensures '<' !in r && '>' !in r && '"' !in r && '\'' !in r
    ensures (forall i :: 0 <= i < |s| ==> s[i] !in HtmlSpecial) ==> r == s
    ensures Decode(r) == s
    ensures Escaped(r)
  {
    RoundTrip(s, HtmlSpecial);
    EscapeEscaped(s, HtmlSpecial);
    if forall i :: 0 <= i < |s| ==> s[i] !in HtmlSpecial then
      EscapePlain(s, HtmlSpecial);
      Escape(s, HtmlSpecial)
    else Escape(s, HtmlSpecial)
  }

  /** An entity reference the escaper writes starts at index `i` of `r`. */
  predicate RefAt(r: string, i: nat)
  {
    OccursAt(r, "&amp;", i) || OccursAt(r, "&lt;", i) || OccursAt(r, "&gt;", i)
    || OccursAt(r, "&quot;", i) || OccursAt(r, "&#039;", i)
  }

  /** `r` is well-formed XML character data as far as escaping goes: it has
      no `<`, and every ampersand in it begins an entity reference. */
  predicate Escaped(r: string)
  {
    forall i :: 0 <= i < |r| ==> r[i] != '<' && (r[i] == '&' ==> RefAt(r, i))
  }

  /** Escaping the ampersand and `<` yields well-formed character data. */
  lemma {:induction false} EscapeEscaped(s: string, special: set<char>)
    requires '&' in special && '<' in special
    ensures Escaped(Escape(s, special))
  {
    if s != [] {
      EscapeEscaped(s[1..], special);
      var e := if s[0] in special then Entity(s[0]) else [s[0]];
      EntityEscaped(s[0], special);
      EscapedAppend(e, Escape(s[1..], special));
    }
  }

  /** What one character is escaped to is well-formed on its own. */
  lemma EntityEscaped(c: char, special: set<char>)
    requires '&' in special && '<' in special
    ensures Escaped(if c in special then Entity(c) else [c])
  {
    var e := if c in special then Entity(c) else [c];
    if c in special && c in HtmlSpecial {
      assert RefAt(e, 0);
    }
  }

  /** Well-formed character data stays well-formed when concatenated. */
  lemma EscapedAppend(a: string, b: string)
    requires Escaped(a) && Escaped(b)
    ensures Escaped(a + b)
  {
    var ab := a + b;
    forall i | 0 <= i < |ab| && ab[i] == '&'
      ensures RefAt(ab, i)
    {
      if i < |a| {
        assert RefAt(a, i);
        PrefixStartsWith(a[i..], b, "&amp;");
        PrefixStartsWith(a[i..], b, "&lt;");
        PrefixStartsWith(a[i..], b, "&gt;");
        PrefixStartsWith(a[i..], b, "&quot;");
        PrefixStartsWith(a[i..], b, "&#039;");
        assert ab[i..] == a[i..] + b;
      } else {
        assert ab[i] == b[i - |a|];
        assert RefAt(b, i - |a|);
        assert ab[i..] == b[i - |a|..];
      }
    }
  }

  /** A prefix of `t` stays a prefix of `t + u`. */
  lemma PrefixStartsWith(t: string, u: string, p: string)
    ensures StartsWith(t, p) ==> StartsWith(t + u, p)
  {
    if |p| <= |t| {
      assert (t + u)[..|p|] == t[..|p|];
    }
  }

  /** Resolves the predefined entity references and `&#039;`; any other
      ampersand stands for itself. */
  function Decode(s: string): string
    decreases |s|
  {
    if s == [] then ""
    else if s[0] != '&' then [s[0]] + Decode(s[1..])
    else if StartsWith(s, "&amp;") then "&" + Decode(s[5..])
    else if StartsWith(s, "&lt;") then "<" + Decode(s[4..])
    else if StartsWith(s, "&gt;") then ">" + Decode(s[4..])
    else if StartsWith(s, "&quot;") then "\"" + Decode(s[6..])
    else if StartsWith(s, "&apos;") then "'" + Decode(s[6..])
    else if StartsWith(s, "&#039;") then "'" + Decode(s[6..])
    else "&" + Decode(s[1..])
  }

  /** One escaped character is decoded back, whatever follows it. */
  lemma DecodeEntity(c: char, t: string)
    ensures Decode(Entity(c) + t) == [c] + Decode(t)
  {
    var s := Entity(c) + t;
    var e := Entity(c);
    assert s[..|e|] == e;
    assert s[|e|..] == t;
    if c == '&' {
      assert StartsWith(s, "&amp;");
    } else if c == '<' {
      assert !StartsWith(s, "&amp;") by { assert s[1] == 'l'; }
      assert StartsWith(s, "&lt;");
    } else if c == '>' {
      assert !StartsWith(s, "&amp;") by { assert s[1] == 'g'; }
      assert !StartsWith(s, "&lt;") by { assert s[1] == 'g'; }
      assert StartsWith(s, "&gt;");
    } else if c == '"' {
      assert !StartsWith(s, "&amp;") by { assert s[1] == 'q'; }
      assert !StartsWith(s, "&lt;") by { assert s[1] == 'q'; }
      assert !StartsWith(s, "&gt;") by { assert s[1] == 'q'; }
      assert StartsWith(s, "&quot;");
    } else if c == '\'' {
      assert !StartsWith(s, "&amp;") by { assert s[1] == '#'; }
      assert !StartsWith(s, "&lt;") by { assert s[1] == '#'; }
      assert !StartsWith(s, "&gt;") by { assert s[1] == '#'; }
      assert !StartsWith(s, "&quot;") by { assert s[1] == '#'; }
      assert !StartsWith(s, "&apos;") by { assert s[1] == '#'; }
      assert StartsWith(s, "&#039;");
    } else {
      assert s[0] == c && s[1..] == t;
    }
  }

  /** Decoding undoes escaping as long as the ampersand itself is escaped. */
  lemma {:induction false} DecodeEscape(s: string, special: set<char>, t: string)
    requires '&' in special
    ensures Decode(Escape(s, special) + t) == s + Decode(t)
  {
    if s != [] {
      var rest := Escape(s[1..], special) + t;
      DecodeEscape(s[1..], special, t);
      EscapeCons(s, special, t);
      if s[0] in special {
        DecodeEntity(s[0], rest);
      } else {
        DecodePlain(s[0], rest);
      }
      ConsAppend(s, Decode(t));
    } else {
      assert Escape(s, special) + t == t;
    }
  }

  lemma EscapeCons(s: string, special: set<char>, t: string)
    requires s != []
    ensures Escape(s, special) + t
         == (if s[0] in special then Entity(s[0]) else [s[0]]) + (Escape(s[1..], special) + t)
  {
  }

  /** A character other than the ampersand decodes to itself. */
  lemma DecodePlain(c: char, rest: string)
    requires c != '&'
    ensures Decode([c] + rest) == [c] + Decode(rest)
  {
    assert ([c] + rest)[1..] == rest;
  }

  lemma ConsAppend(s: string, u: string)
    requires s != []
    ensures [s[0]] + (s[1..] + u) == s + u
  {
    assert s == [s[0]] + s[1..];
  }

  /** Round trip: `Decode(Escape(s)) == s`. */
  lemma RoundTrip(s: string, special: set<char>)
    requires '&' in special
    ensures Decode(Escape(s, special)) == s
  {
    DecodeEscape(s, special, "");
    assert Escape(s, special) + "" == Escape(s, special);
  }
}
