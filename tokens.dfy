/** `str::split_whitespace`, `str::split` on a character or a string, and
    `str::parse` for integers, with the decimal rendering that undoes the
    parse. */
module Tokens {

  import opened Wrappers
  import opened Text

  const I64_MIN: int := -0x8000_0000_0000_0000
  const I64_MAX: int := 0x7FFF_FFFF_FFFF_FFFF
  const U64_MAX: int := 0xFFFF_FFFF_FFFF_FFFF
  const I32_MIN: int := -0x8000_0000
  const I32_MAX: int := 0x7FFF_FFFF

  // ---------------------------------------------------------------------
  // split_whitespace

  /** A non-empty run of characters none of which is whitespace. */
  predicate IsWord(w: string) {
    w != [] && forall i :: 0 <= i < |w| ==> !IsWhitespace(w[i])
  }

  /** The run of non-whitespace characters that starts s. */
  function Word(s: string): (w: string)
    ensures |w| <= |s| && w == s[..|w|]
    ensures forall i :: 0 <= i < |w| ==> !IsWhitespace(w[i])
    ensures |w| == |s| || IsWhitespace(s[|w|])
  {
    if s == [] || IsWhitespace(s[0]) then [] else [s[0]] + Word(s[1..])
  }

  /** `split_whitespace`: the words of s, in order. */
  function SplitWhitespace(s: string): (ws: seq<string>)
    ensures forall k :: 0 <= k < |ws| ==> IsWord(ws[k])
    decreases |s|
  {
    if s == [] then []
    else if IsWhitespace(s[0]) then SplitWhitespace(s[1..])
    else
      var w := Word(s);
      [w] + SplitWhitespace(s[|w|..])
  }

  /** Words joined by single spaces. */
  function JoinSpaces(ws: seq<string>): string
  {
    if ws == [] then []
    else if |ws| == 1 then ws[0]
    else ws[0] + " " + JoinSpaces(ws[1..])
  }

  lemma WordOfWord(w: string, rest: string)
    requires IsWord(w)
    requires rest == [] || IsWhitespace(rest[0])
    ensures Word(w + rest) == w
    decreases |w|
  {
    if |w| > 1 {
      assert (w + rest)[1..] == w[1..] + rest;
      WordOfWord(w[1..], rest);
    } else {
      assert (w + rest)[1..] == rest;
    }
  }

  /** Splitting words joined by spaces gives back the words. */
  lemma {:induction false} SplitJoin(ws: seq<string>)
    requires forall k :: 0 <= k < |ws| ==> IsWord(ws[k])
    ensures SplitWhitespace(JoinSpaces(ws)) == ws
  {
    if ws == [] {
    } else if |ws| == 1 {
      WordOfWord(ws[0], []);
      assert ws[0] + [] == ws[0];
      assert ws[0][|ws[0]|..] == [];
    } else {
      var w, t := ws[0], JoinSpaces(ws[1..]);
      var s := w + " " + t;
      assert s == w + (" " + t);
      WordOfWord(w, " " + t);
      assert s[|w|..] == " " + t;
      assert (" " + t)[1..] == t;
      SplitJoin(ws[1..]);
      assert ws == [w] + ws[1..];
    }
  }

  // ---------------------------------------------------------------------
  // split on a separator

  /** `str::split(sep)`: the pieces between separators, empty ones
      included, so there is always at least one. */
  function SplitOn(s: string, sep: char): (parts: seq<string>)
    ensures |parts| >= 1
  {
    if s == [] then [[]]
    else if s[0] == sep then [[]] + SplitOn(s[1..], sep)
    else
      var rest := SplitOn(s[1..], sep);
      [[s[0]] + rest[0]] + rest[1..]
  }

  /** Pieces joined with the separator between them. */
  function JoinOn(ws: seq<string>, sep: char): string
    requires |ws| >= 1
  {
    if |ws| == 1 then ws[0] else ws[0] + [sep] + JoinOn(ws[1..], sep)
  }

  /** A piece without the separator stays whole at the front. */
  lemma {:induction false} SplitPiece(w: string, rest: string, sep: char)
    requires sep !in w
    ensures SplitOn(w + rest, sep) == [w + SplitOn(rest, sep)[0]] + SplitOn(rest, sep)[1..]
  {
    if w != [] {
      assert (w + rest)[1..] == w[1..] + rest;
      SplitPiece(w[1..], rest, sep);
      assert w + SplitOn(rest, sep)[0] == [w[0]] + (w[1..] + SplitOn(rest, sep)[0]);
    } else {
      var parts := SplitOn(rest, sep);
      assert w + rest == rest && w + parts[0] == parts[0];
      assert parts == [parts[0]] + parts[1..];
    }
  }

  /** Splitting pieces joined by a separator they do not hold gives them back. */
  lemma {:induction false} SplitJoinOn(ws: seq<string>, sep: char)
    requires |ws| >= 1 && forall k :: 0 <= k < |ws| ==> sep !in ws[k]
    ensures SplitOn(JoinOn(ws, sep), sep) == ws
  {
    if |ws| == 1 {
      SplitPiece(ws[0], [], sep);
      assert ws[0] + [] == ws[0];
    } else {
      var t := JoinOn(ws[1..], sep);
      assert ws[0] + [sep] + t == ws[0] + ([sep] + t);
      SplitPiece(ws[0], [sep] + t, sep);
      assert ([sep] + t)[1..] == t;
      SplitJoinOn(ws[1..], sep);
      assert ws[0] + [] == ws[0];
      assert ws == [ws[0]] + ws[1..];
    }
  }

  /** `str::lines`: the pieces between '\n's, without the empty piece a
      final '\n' leaves, and without a '\r' that stands just before a
      '\n'. */
  function Lines(s: string): seq<string> {
    var parts := SplitOn(s, '\n');
    var n := |parts|;
    var kept := if parts[n - 1] == [] then parts[..n - 1] else parts;
    seq(|kept|, k requires 0 <= k < |kept| =>
      if k < n - 1 && kept[k] != [] && kept[k][|kept[k]| - 1] == '\r' then kept[k][..|kept[k]| - 1]
      else kept[k])
  }

  /** Lines joined with '\n', none of them holding '\n' or '\r' and the
      last one not empty, come back apart as they were. */
  lemma LinesOfJoin(ws: seq<string>)
    requires |ws| >= 1 && ws[|ws| - 1] != []
    requires forall k :: 0 <= k < |ws| ==> '\n' !in ws[k] && '\r' !in ws[k]
    ensures Lines(JoinOn(ws, '\n')) == ws
  {
    SplitJoinOn(ws, '\n');
    assert forall k :: 0 <= k < |ws| && ws[k] != [] ==> ws[k][|ws[k]| - 1] in ws[k];
  }

  // ---------------------------------------------------------------------
  // parse

  predicate AllDigits(s: string) {
    forall i :: 0 <= i < |s| ==> IsDigit(s[i])
  }

  /** The value of a run of decimal digits, most significant first. */
  function NumeralValue(ds: string): nat
    requires AllDigits(ds)
  {
    if ds == [] then 0
    else NumeralValue(ds[..|ds| - 1]) * 10 + (ds[|ds| - 1] as int - '0' as int)
  }

  /** `str::parse::<i64>`: an optional '+' or '-', at least one digit, and a
      value that fits in 64 bits; anything else is an error. */
  function ParseI64(s: string): (r: Option<int>)
    ensures r.Some? ==> I64_MIN <= r.value <= I64_MAX
    ensures r.Some? ==> s != [] && (r.value < 0 ==> s[0] == '-')
  {
    var neg := s != [] && s[0] == '-';
    var ds := if s != [] && (s[0] == '+' || s[0] == '-') then s[1..] else s;
    if ds == [] || !AllDigits(ds) then None
    else
      var v := if neg then 0 - NumeralValue(ds) else NumeralValue(ds);
      if I64_MIN <= v <= I64_MAX then Some(v) else None
  }

  /** `str::parse::<i32>`: the same text as for i64, in 32 bits. */
  function ParseI32(s: string): (r: Option<int>)
    ensures r.Some? ==> I32_MIN <= r.value <= I32_MAX && ParseI64(s) == r
    ensures ParseI64(s).Some? && I32_MIN <= ParseI64(s).value <= I32_MAX ==> r == ParseI64(s)
  {
    match ParseI64(s)
    case Some(v) => if I32_MIN <= v <= I32_MAX then Some(v) else None
    case None => None
  }

  /** `str::parse::<usize>` on a 64-bit target: an optional '+', at least
      one digit, and a value below 2^64; a '-' is an error. */
  function ParseUsize(s: string): (r: Option<nat>)
    ensures r.Some? ==> r.value <= U64_MAX
  {
    var ds := if s != [] && s[0] == '+' then s[1..] else s;
    if ds == [] || !AllDigits(ds) then None
    else if NumeralValue(ds) <= U64_MAX then Some(NumeralValue(ds))
    else None
  }

  // ---------------------------------------------------------------------
  // Display, the inverse of parse

  function DigitChar(d: nat): char
    requires d < 10
  {
    ('0' as int + d) as char
  }

  /** The decimal digits of n, without leading zeros. */
  function ShowNat(n: nat): (s: string)
    ensures s != [] && AllDigits(s)
  {
    if n < 10 then [DigitChar(n)] else ShowNat(n / 10) + [DigitChar(n % 10)]
  }

  /** The decimal rendering of i, with '-' before a negative number. */
  function ShowInt(i: int): (s: string)
    ensures IsWord(s)
  {
    if i < 0 then "-" + ShowNat(-i) else ShowNat(i)
  }

  lemma {:induction false} ShowNatValue(n: nat)
    ensures NumeralValue(ShowNat(n)) == n
  {
    if n >= 10 {
      var s := ShowNat(n);
      assert s[..|s| - 1] == ShowNat(n / 10);
      ShowNatValue(n / 10);
    }
  }

  /** Parsing a rendered 64-bit integer gives it back. */
  lemma ParseShowI64(i: int)
    requires I64_MIN <= i <= I64_MAX
    ensures ParseI64(ShowInt(i)) == Some(i)
  {
    var s := ShowInt(i);
    if i < 0 {
      ShowNatValue(-i);
      assert s[1..] == ShowNat(-i);
    } else {
      ShowNatValue(i);
    }
  }

  /** Parsing a rendered unsigned 64-bit integer gives it back. */
  lemma ParseShowUsize(n: nat)
    requires n <= U64_MAX
    ensures ParseUsize(ShowNat(n)) == Some(n)
  {
    ShowNatValue(n);
  }

  /** Parsing a rendered 32-bit integer gives it back. */
  lemma ParseShowI32(i: int)
    requires I32_MIN <= i <= I32_MAX
    ensures ParseI32(ShowInt(i)) == Some(i)
  {
    assert I64_MIN <= I32_MIN && I32_MAX <= I64_MAX;
    ParseShowI64(i);
  }

  /** A rendered integer holds nothing but digits and a leading '-'. */
  lemma ShowIntChars(i: int, c: char)
    requires c != '-' && !IsDigit(c)
    ensures c !in ShowInt(i)
  {
    var s := ShowInt(i);
    if i < 0 {
      assert s == "-" + ShowNat(-i);
      assert forall k :: 0 <= k < |s| ==> s[k] == '-' || IsDigit(s[k]);
    }
  }

  // ---------------------------------------------------------------------
  // find and split on a string

  /** `str::find(c)`: the first index of c. */
  function Find(s: string, c: char): (r: Option<nat>)
    ensures r.Some? ==> r.value < |s| && s[r.value] == c && c !in s[..r.value]
    ensures r.None? ==> c !in s
  {
    if s == [] then None
    else if s[0] == c then Some(0)
    else
      match Find(s[1..], c)
      case None => None
      case Some(i) =>
        assert s[..i + 1] == [s[0]] + s[1..][..i];
        Some(i + 1)
  }

  /** `str::split(sep)` for a separator string: the pieces between the
      leftmost non-overlapping occurrences, empty ones included. */
  function SplitStr(s: string, sep: string): (parts: seq<string>)
    requires sep != []
    ensures |parts| >= 1
    decreases |s|
  {
    if s == [] then [[]]
    else if sep <= s then [[]] + SplitStr(s[|sep|..], sep)
    else
      var rest := SplitStr(s[1..], sep);
      [[s[0]] + rest[0]] + rest[1..]
  }

  /** Pieces joined with sep between them. */
  function JoinStr(ws: seq<string>, sep: string): string
    requires |ws| >= 1
  {
    if |ws| == 1 then ws[0] else ws[0] + sep + JoinStr(ws[1..], sep)
  }

  /** A piece without the first character of the separator stays whole at
      the front. */
  lemma {:induction false} SplitStrPiece(w: string, rest: string, sep: string)
    requires sep != [] && sep[0] !in w
    ensures SplitStr(w + rest, sep) == [w + SplitStr(rest, sep)[0]] + SplitStr(rest, sep)[1..]
  {
    if w != [] {
      assert (w + rest)[0] == w[0] && (w + rest)[1..] == w[1..] + rest;
      assert !(sep <= w + rest);
      SplitStrPiece(w[1..], rest, sep);
      assert w + SplitStr(rest, sep)[0] == [w[0]] + (w[1..] + SplitStr(rest, sep)[0]);
    } else {
      var parts := SplitStr(rest, sep);
      assert w + rest == rest && w + parts[0] == parts[0];
      assert parts == [parts[0]] + parts[1..];
    }
  }

  /** Splitting pieces joined by a separator whose first character none of
      them holds gives them back. */
  lemma {:induction false} SplitStrJoin(ws: seq<string>, sep: string)
    requires sep != [] && |ws| >= 1 && forall k :: 0 <= k < |ws| ==> sep[0] !in ws[k]
    ensures SplitStr(JoinStr(ws, sep), sep) == ws
  {
    if |ws| == 1 {
      SplitStrPiece(ws[0], [], sep);
      assert ws[0] + [] == ws[0];
    } else {
      var t := JoinStr(ws[1..], sep);
      assert ws[0] + sep + t == ws[0] + (sep + t);
      SplitStrPiece(ws[0], sep + t, sep);
      assert sep <= sep + t && (sep + t)[|sep|..] == t;
      SplitStrJoin(ws[1..], sep);
      assert ws[0] + [] == ws[0];
      assert ws == [ws[0]] + ws[1..];
    }
  }
}
