/** Box-ID checksum (2/problem1.py): for each stripped line, whether some
    character occurs exactly twice and whether some occurs exactly three
    times; the checksum multiplies the numbers of such lines. */
module Day02Checksum {

  import opened Text

  /** `str.count` for a single character. */
  function Count(l: string, c: char): (n: nat)
    ensures n <= |l|
  {
    if l == [] then 0
    else (if l[0] == c then 1 else 0) + Count(l[1..], c)
  }

  /** `Count` is the multiplicity of `c` in the multiset of `l`'s characters. */
  lemma {:induction false} CountIsMultiplicity(l: string, c: char)
    ensures Count(l, c) == multiset(l)[c]
  {
    if l != [] {
      assert l == [l[0]] + l[1..];
      CountIsMultiplicity(l[1..], c);
    }
  }

  /** One of the first `n` characters of `l` occurs exactly `k` times in `l`. */
  predicate SomeAmongFirst(l: string, k: nat, n: nat)
    requires n <= |l|
  {
    n > 0 && (SomeAmongFirst(l, k, n - 1) || Count(l, l[n - 1]) == k)
  }

  /** Some character of `l` occurs exactly `k` times in `l`. */
  predicate HasExactly(l: string, k: nat) {
    SomeAmongFirst(l, k, |l|)
  }

  lemma {:induction false} SomeAmongFirstMeans(l: string, k: nat, n: nat)
    requires n <= |l|
    ensures SomeAmongFirst(l, k, n) <==> exists i :: 0 <= i < n && Count(l, l[i]) == k
  {
    if n > 0 {
      SomeAmongFirstMeans(l, k, n - 1);
    }
  }

  /** A line's flags depend only on the multiset of its characters. */
  lemma HasExactlyMultiset(a: string, b: string, k: nat)
    requires multiset(a) == multiset(b)
    ensures HasExactly(a, k) <==> HasExactly(b, k)
  {
    SomeAmongFirstMeans(a, k, |a|);
    SomeAmongFirstMeans(b, k, |b|);
    if HasExactly(a, k) {
      var i :| 0 <= i < |a| && Count(a, a[i]) == k;
      assert a[i] in multiset(b);
      var j :| 0 <= j < |b| && b[j] == a[i];
      CountIsMultiplicity(a, a[i]);
      CountIsMultiplicity(b, b[j]);
    }
    if HasExactly(b, k) {
      var j :| 0 <= j < |b| && Count(b, b[j]) == k;
      assert b[j] in multiset(a);
      var i :| 0 <= i < |a| && a[i] == b[j];
      CountIsMultiplicity(a, a[i]);
      CountIsMultiplicity(b, b[j]);
    }
  }

  /** The inner `for c in l` loop: `has2`/`has3` as set by the `if`/`elif`,
      leaving the loop once both are set. */
  method LineFlags(l: string) returns (has2: bool, has3: bool)
    ensures has2 <==> HasExactly(l, 2)
    ensures has3 <==> HasExactly(l, 3)
  {
    has2, has3 := false, false;
    var i := 0;
    while i < |l|
      invariant 0 <= i <= |l|
      invariant has2 == SomeAmongFirst(l, 2, i)
      invariant has3 == SomeAmongFirst(l, 3, i)
    {
      var count := Count(l, l[i]);
      if count == 2 {
        has2 := true;
      } else if count == 3 {
        has3 := true;
      }
      if has2 && has3 {
        SomeAmongFirstMeans(l, 2, i + 1);
        SomeAmongFirstMeans(l, 2, |l|);
        SomeAmongFirstMeans(l, 3, i + 1);
        SomeAmongFirstMeans(l, 3, |l|);
        return;
      }
      i := i + 1;
    }
  }

  /** The number of lines whose stripped text has a character exactly `k` times. */
  function LinesWith(lines: seq<string>, k: nat): (n: nat)
    ensures n <= |lines|
  {
    if lines == [] then 0
    else LinesWith(lines[..|lines| - 1], k) + (if HasExactly(Trim(lines[|lines| - 1]), k) then 1 else 0)
  }

  /** Line counts add up over a split of the file. */
  lemma {:induction false} LinesWithAppend(a: seq<string>, b: seq<string>, k: nat)
    ensures LinesWith(a + b, k) == LinesWith(a, k) + LinesWith(b, k)
    decreases |b|
  {
    if b == [] {
      assert a + b == a;
    } else {
      assert (a + b)[..|a + b| - 1] == a + b[..|b| - 1];
      LinesWithAppend(a, b[..|b| - 1], k);
    }
  }

  lemma LinesWithStep(lines: seq<string>, n: nat, k: nat)
    requires n < |lines|
    ensures LinesWith(lines[..n + 1], k) == LinesWith(lines[..n], k) + (if HasExactly(Trim(lines[n]), k) then 1 else 0)
  {
    assert lines[..n + 1][..n] == lines[..n];
  }

  /** The outer loop: `count2`, `count3` and the printed product. */
  method Checksum(lines: seq<string>) returns (count2: nat, count3: nat, checksum: int)
    ensures count2 == LinesWith(lines, 2)
    ensures count3 == LinesWith(lines, 3)
    ensures checksum == count2 * count3
  {
    count2, count3 := 0, 0;
    var n := 0;
    while n < |lines|
      invariant 0 <= n <= |lines|
      invariant count2 == LinesWith(lines[..n], 2)
      invariant count3 == LinesWith(lines[..n], 3)
    {
      var has2, has3 := LineFlags(Trim(lines[n]));
      LinesWithStep(lines, n, 2);
      LinesWithStep(lines, n, 3);
      if has2 {
        count2 := count2 + 1;
      }
      if has3 {
        count3 := count3 + 1;
      }
      n := n + 1;
    }
    assert lines[..n] == lines;
    checksum := count2 * count3;
  }

  /** The puzzle's example IDs: "abbcde" counts for two only, "abcccd" for three only. */
  lemma SampleFlags()
    ensures HasExactly("abbcde", 2)
    ensures HasExactly("abcccd", 3)
  {
    SomeAmongFirstMeans("abbcde", 2, 6);
    SomeAmongFirstMeans("abcccd", 3, 6);
    assert Count("abbcde", 'b') == 2;
    assert Count("abcccd", 'c') == 3;
    assert "abbcde"[1] == 'b' && "abcccd"[2] == 'c';
  }
}
