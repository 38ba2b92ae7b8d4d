/** Correct box IDs (2/problem2.py): every pair of stripped lines is
    compared position by position; when exactly one position differs, the
    agreeing characters are printed. Lines of different lengths end the
    script. */
module Day02Common {

  import Text

  /** `[line.strip() for line in lines]`. */
  function StripAll(raw: seq<string>): (lines: seq<string>)
    ensures |lines| == |raw|
    ensures forall k :: 0 <= k < |raw| ==> lines[k] == Text.Trim(raw[k])
  {
    seq(|raw|, k requires 0 <= k < |raw| => Text.Trim(raw[k]))
  }

  /** The characters at which `a` and `b` agree, in order. */
  function Agreeing(a: string, b: string): (e: string)
    requires |a| == |b|
    ensures |e| <= |a|
  {
    if a == [] then []
    else Agreeing(a[..|a| - 1], b[..|b| - 1]) + (if a[|a| - 1] == b[|b| - 1] then [a[|a| - 1]] else [])
  }

  /** The number of positions at which `a` and `b` differ. */
  function Differences(a: string, b: string): (d: nat)
    requires |a| == |b|
  {
    if a == [] then 0
    else Differences(a[..|a| - 1], b[..|b| - 1]) + (if a[|a| - 1] == b[|b| - 1] then 0 else 1)
  }

  /** Every position either agrees or differs. */
  lemma {:induction false} AgreeingPlusDifferences(a: string, b: string)
    requires |a| == |b|
    ensures Differences(a, b) + |Agreeing(a, b)| == |a|
  {
    if a != [] {
      AgreeingPlusDifferences(a[..|a| - 1], b[..|b| - 1]);
    }
  }

  /** When exactly position `p` differs, the agreeing characters are `a`
      with position `p` removed. */
  lemma {:induction false} OneDifferenceDropsIt(a: string, b: string, p: nat)
    requires |a| == |b| && p < |a|
    requires a[p] != b[p]
    requires forall i :: 0 <= i < |a| && i != p ==> a[i] == b[i]
    ensures Differences(a, b) == 1
    ensures Agreeing(a, b) == a[..p] + a[p + 1..]
  {
    if p == |a| - 1 {
      AgreeAll(a[..|a| - 1], b[..|b| - 1]);
      assert a[..p] + a[p + 1..] == a[..|a| - 1];
    } else {
      OneDifferenceDropsIt(a[..|a| - 1], b[..|b| - 1], p);
      assert a[..p] + a[p + 1..] == a[..|a| - 1][..p] + a[..|a| - 1][p + 1..] + [a[|a| - 1]];
    }
  }

  lemma {:induction false} AgreeAll(a: string, b: string)
    requires a == b
    ensures Differences(a, b) == 0 && Agreeing(a, b) == a
  {
    if a != [] {
      AgreeAll(a[..|a| - 1], b[..|b| - 1]);
    }
  }

  /** The inner loop over `j`: `diff_count` and `equal_string`. */
  method Compare(line1: string, line2: string) returns (diffCount: nat, equalString: string)
    requires |line1| == |line2|
    ensures diffCount == Differences(line1, line2)
    ensures equalString == Agreeing(line1, line2)
  {
    diffCount, equalString := 0, "";
    var j := 0;
    while j < |line1|
      invariant 0 <= j <= |line1|
      invariant diffCount == Differences(line1[..j], line2[..j])
      invariant equalString == Agreeing(line1[..j], line2[..j])
    {
      assert line1[..j + 1][..j] == line1[..j] && line2[..j + 1][..j] == line2[..j];
      if line1[j] == line2[j] {
        equalString := equalString + [line1[j]];
      } else {
        diffCount := diffCount + 1;
      }
      j := j + 1;
    }
    assert line1[..j] == line1 && line2[..j] == line2;
  }

  /** What the script has printed, and whether it stopped at `sys.exit(1)`. */
  datatype Outcome = Outcome(printed: seq<string>, exited: bool)

  /** One comparison of `lines[i]` with `lines[j]`, on top of `printed`. */
  function ComparePair(lines: seq<string>, i: nat, j: nat, printed: seq<string>): Outcome
    requires i < |lines| && j < |lines|
  {
    if |lines[i]| != |lines[j]| then Outcome(printed, true)
    else if Differences(lines[i], lines[j]) == 1 then Outcome(printed + [Agreeing(lines[i], lines[j])], false)
    else Outcome(printed, false)
  }

  /** The rest of the script from pair `(i, j)` on: the `j` loop finishes
      row `i`, then the rows after it follow. */
  function ScanFrom(lines: seq<string>, i: nat, j: nat, printed: seq<string>): Outcome
    requires i < |lines| && i < j <= |lines|
    decreases |lines| - i, |lines| - j
  {
    if j < |lines| then
      var o := ComparePair(lines, i, j, printed);
      if o.exited then o else ScanFrom(lines, i, j + 1, o.printed)
    else if i + 2 < |lines| then ScanFrom(lines, i + 1, i + 2, printed)
    else Outcome(printed, false)
  }

  /** The whole script over the stripped lines. */
  function Script(lines: seq<string>): Outcome {
    if |lines| < 2 then Outcome([], false) else ScanFrom(lines, 0, 1, [])
  }

  /** The two nested loops over `enumerate(lines[:-1])` and `lines[i+1:]`. */
  method Run(raw: seq<string>) returns (printed: seq<string>, exited: bool)
    ensures Outcome(printed, exited) == Script(StripAll(raw))
  {
    var lines := StripAll(raw);
    printed, exited := [], false;
    if |lines| < 2 {
      return;
    }
    var i := 0;
    while i < |lines| - 1
      invariant 0 <= i <= |lines| - 1
      invariant i < |lines| - 1 ==> ScanFrom(lines, i, i + 1, printed) == Script(lines)
      invariant i == |lines| - 1 ==> Outcome(printed, false) == Script(lines)
    {
      var j := i + 1;
      while j < |lines|
        invariant i < j <= |lines|
        invariant ScanFrom(lines, i, j, printed) == Script(lines)
      {
        if |lines[i]| != |lines[j]| {
          exited := true;
          return;
        }
        var diffCount, equalString := Compare(lines[i], lines[j]);
        if diffCount == 1 {
          printed := printed + [equalString];
        }
        j := j + 1;
      }
      i := i + 1;
    }
  }

  /** Each unordered pair `i < j` is compared once, in the loops' order:
      this lists the pairs that the scan from `(i, j)` still visits. */
  function PairsFrom(n: nat, i: nat, j: nat): (ps: seq<(nat, nat)>)
    requires i < n && i < j <= n
    ensures forall k :: 0 <= k < |ps| ==> ps[k].0 < ps[k].1 < n
    decreases n - i, n - j
  {
    if j < n then [(i, j)] + PairsFrom(n, i, j + 1)
    else if i + 2 < n then PairsFrom(n, i + 1, i + 2)
    else []
  }

  /** The pairs visited from `(i, j)` come after it in row order. */
  lemma {:induction false} PairsFromAfter(n: nat, i: nat, j: nat)
    requires i < n && i < j <= n
    ensures forall k :: 0 <= k < |PairsFrom(n, i, j)| ==>
      i < PairsFrom(n, i, j)[k].0 || (i == PairsFrom(n, i, j)[k].0 && j <= PairsFrom(n, i, j)[k].1)
    decreases n - i, n - j
  {
    if j < n {
      PairsFromAfter(n, i, j + 1);
    } else if i + 2 < n {
      PairsFromAfter(n, i + 1, i + 2);
    }
  }

  /** Every pair after `(i, j)` in row order is visited. */
  lemma {:induction false} PairsFromComplete(n: nat, i: nat, j: nat)
    requires i < n && i < j <= n
    ensures forall a, b :: a < b < n && (i < a || (a == i && j <= b)) ==> (a, b) in PairsFrom(n, i, j)
    decreases n - i, n - j
  {
    if j < n {
      PairsFromComplete(n, i, j + 1);
    } else if i + 2 < n {
      PairsFromComplete(n, i + 1, i + 2);
    }
  }

  /** No pair is visited twice. */
  lemma {:induction false} PairsFromDistinct(n: nat, i: nat, j: nat)
    requires i < n && i < j <= n
    ensures forall k, l :: 0 <= k < l < |PairsFrom(n, i, j)| ==> PairsFrom(n, i, j)[k] != PairsFrom(n, i, j)[l]
    decreases n - i, n - j
  {
    if j < n {
      PairsFromDistinct(n, i, j + 1);
      PairsFromAfter(n, i, j + 1);
    } else if i + 2 < n {
      PairsFromDistinct(n, i + 1, i + 2);
    }
  }

  /** All lines are as long as the first. */
  predicate SameLength(lines: seq<string>) {
    forall k :: 0 <= k < |lines| ==> |lines[k]| == |lines[0]|
  }

  /** What comparing `lines[a]` with `lines[b]` prints: their agreeing
      characters when they differ in exactly one position. */
  function Found(lines: seq<string>, a: nat, b: nat): seq<string>
    requires a < |lines| && b < |lines| && |lines[a]| == |lines[b]|
  {
    if Differences(lines[a], lines[b]) == 1 then [Agreeing(lines[a], lines[b])] else []
  }

  /** The agreeing characters of the listed pairs that differ in exactly
      one position, in list order. */
  function CommonLetters(lines: seq<string>, ps: seq<(nat, nat)>): seq<string>
    requires forall k :: 0 <= k < |ps| ==> ps[k].0 < |lines| && ps[k].1 < |lines|
    requires SameLength(lines)
  {
    if ps == [] then [] else Found(lines, ps[0].0, ps[0].1) + CommonLetters(lines, ps[1..])
  }

  /** One comparison of equally long lines inside row `i`. */
  lemma ScanPairStep(lines: seq<string>, i: nat, j: nat, printed: seq<string>)
    requires i < j < |lines| && |lines[i]| == |lines[j]|
    ensures ScanFrom(lines, i, j, printed) == ScanFrom(lines, i, j + 1, printed + Found(lines, i, j))
  {
    assert ComparePair(lines, i, j, printed) == Outcome(printed + Found(lines, i, j), false);
  }

  /** Without a length mismatch, the script never exits and prints, in
      order, the agreeing characters of every pair that differs in exactly
      one position; each printed string is one shorter than the lines. */
  lemma {:induction false} ScanPrintsCommonLetters(lines: seq<string>, i: nat, j: nat, printed: seq<string>)
    requires i < |lines| && i < j <= |lines|
    requires SameLength(lines)
    ensures ScanFrom(lines, i, j, printed) == Outcome(printed + CommonLetters(lines, PairsFrom(|lines|, i, j)), false)
    decreases |lines| - i, |lines| - j
  {
    if j < |lines| {
      var head := Found(lines, i, j);
      ScanPairStep(lines, i, j, printed);
      ScanPrintsCommonLetters(lines, i, j + 1, printed + head);
      var ps, rest := PairsFrom(|lines|, i, j), PairsFrom(|lines|, i, j + 1);
      assert ps == [(i, j)] + rest;
      assert ps[0] == (i, j) && ps[1..] == rest;
      assert CommonLetters(lines, ps) == head + CommonLetters(lines, rest);
      assert printed + head + CommonLetters(lines, rest) == printed + CommonLetters(lines, ps);
    } else if i + 2 < |lines| {
      ScanPrintsCommonLetters(lines, i + 1, i + 2, printed);
      assert ScanFrom(lines, i, j, printed) == ScanFrom(lines, i + 1, i + 2, printed);
      assert PairsFrom(|lines|, i, j) == PairsFrom(|lines|, i + 1, i + 2);
    } else {
      assert ScanFrom(lines, i, j, printed) == Outcome(printed, false);
      assert PairsFrom(|lines|, i, j) == [];
      assert printed + [] == printed;
    }
  }

  /** Every printed string is one character shorter than the lines. */
  lemma {:induction false} CommonLettersShorter(lines: seq<string>, ps: seq<(nat, nat)>)
    requires forall k :: 0 <= k < |ps| ==> ps[k].0 < |lines| && ps[k].1 < |lines|
    requires SameLength(lines)
    ensures forall s :: s in CommonLetters(lines, ps) ==> |s| + 1 == |lines[ps[0].0]|
  {
    if ps != [] {
      var (a, b) := ps[0];
      AgreeingPlusDifferences(lines[a], lines[b]);
      CommonLettersShorter(lines, ps[1..]);
      if ps[1..] != [] {
        assert |lines[ps[1..][0].0]| == |lines[a]|;
      }
    }
  }

  /** The puzzle's example: "fghij" and "fguij" differ only at position 2. */
  lemma SampleCommonLetters()
    ensures Differences("fghij", "fguij") == 1 && Agreeing("fghij", "fguij") == "fgij"
  {
    OneDifferenceDropsIt("fghij", "fguij", 2);
    assert "fghij"[..2] + "fghij"[3..] == "fgij";
  }
}
