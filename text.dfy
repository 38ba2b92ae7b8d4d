/** Character classes and trimming shared by the line-oriented puzzles
    (`str::trim` in Rust, `str.strip` in Python, on ASCII whitespace). */
module Text {

  predicate IsWhitespace(c: char) {
    c == ' ' || c == '\t' || c == '\n' || c == '\r' || c == 11 as char || c == 12 as char
  }

  predicate IsDigit(c: char) {
    '0' <= c <= '9'
  }

  /** `trim`/`strip`: drop whitespace at both ends and keep the rest. */
  function Trim(s: string): (t: string)
    ensures |t| <= |s|
    ensures t == [] || (!IsWhitespace(t[0]) && !IsWhitespace(t[|t| - 1]))
    decreases |s|
  {
    if s == [] then []
    else if IsWhitespace(s[0]) then Trim(s[1..])
    else if IsWhitespace(s[|s| - 1]) then Trim(s[..|s| - 1])
    else s
  }

  /** `Trim` removes only whitespace, and only at the two ends. */
  lemma {:induction false} TrimRemovesEnds(s: string)
    ensures TrimmedTo(s, Trim(s))
    decreases |s|
  {
    if s == [] {
      assert s[0..0] == [] && s[..0] == [] && s[0..] == [];
    } else if IsWhitespace(s[0]) {
      TrimRemovesEnds(s[1..]);
      TrimmedToFront(s, Trim(s));
    } else if IsWhitespace(s[|s| - 1]) {
      TrimRemovesEnds(s[..|s| - 1]);
      TrimmedToBack(s, Trim(s));
    } else {
      assert s == s[0..|s|] && s[..0] == [] && s[|s|..] == [];
    }
  }

  lemma TrimmedToFront(s: string, t: string)
    requires s != [] && IsWhitespace(s[0]) && TrimmedTo(s[1..], t)
    ensures TrimmedTo(s, t)
  {
    var a, b :| 0 <= a <= b <= |s[1..]| && t == s[1..][a..b] && AllWhitespace(s[1..][..a]) && AllWhitespace(s[1..][b..]);
    assert t == s[a + 1..b + 1];
    assert AllWhitespace(s[..a + 1]) by {
      assert s[..a + 1] == [s[0]] + s[1..][..a];
    }
    assert AllWhitespace(s[b + 1..]) by {
      assert s[b + 1..] == s[1..][b..];
    }
  }

  lemma TrimmedToBack(s: string, t: string)
    requires s != [] && IsWhitespace(s[|s| - 1]) && TrimmedTo(s[..|s| - 1], t)
    ensures TrimmedTo(s, t)
  {
    var p := s[..|s| - 1];
    var a, b :| 0 <= a <= b <= |p| && t == p[a..b] && AllWhitespace(p[..a]) && AllWhitespace(p[b..]);
    assert t == s[a..b];
    assert AllWhitespace(s[..a]) by {
      assert s[..a] == p[..a];
    }
    assert AllWhitespace(s[b..]) by {
      assert s[b..] == p[b..] + [s[|s| - 1]];
    }
  }

  predicate AllWhitespace(s: string) {
    forall i :: 0 <= i < |s| ==> IsWhitespace(s[i])
  }

  /** `t` is `s` with some whitespace removed at the front and at the back. */
  ghost predicate TrimmedTo(s: string, t: string) {
    exists a, b :: 0 <= a <= b <= |s| && t == s[a..b] && AllWhitespace(s[..a]) && AllWhitespace(s[b..])
  }
}
