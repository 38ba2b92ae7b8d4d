/** Box-ID checksum with `collections.Counter` (python/2/problem1_counter.py):
    the per-line occurrence map, the list of counts equal to 2 or 3, and
    the same two line counters as 2/problem1.py. */
module Day02Counter {

  import opened Text
  import Day02Checksum

  /** `Counter(l)`: every character of `l` mapped to its number of occurrences. */
  function Counter(l: string): (m: map<char, nat>)
    ensures forall c :: c in m <==> c in multiset(l)
    ensures forall c :: c in m ==> m[c] == multiset(l)[c]
  {
    if l == [] then map[]
    else
      var init := l[..|l| - 1];
      var c := l[|l| - 1];
      assert l == init + [c];
      var m := Counter(init);
      m[c := (if c in m then m[c] else 0) + 1]
  }

  /** `check`: the counts of the counter equal to 2 or 3 (only membership is
      read afterwards, so repetitions and order are not kept). */
  function Check(counter: map<char, nat>): (check: set<nat>)
    ensures forall n :: n in check <==> (n == 2 || n == 3) && exists c :: c in counter && counter[c] == n
  {
    set c | c in counter && (counter[c] == 2 || counter[c] == 3) :: counter[c]
  }

  /** The counter test agrees with the character-by-character test of
      2/problem1.py. */
  lemma CheckAgrees(l: string, k: nat)
    requires k == 2 || k == 3
    ensures k in Check(Counter(l)) <==> Day02Checksum.HasExactly(l, k)
  {
    var m := Counter(l);
    Day02Checksum.SomeAmongFirstMeans(l, k, |l|);
    if k in Check(m) {
      var c :| c in m && m[c] == k;
      assert c in multiset(l);
      var i :| 0 <= i < |l| && l[i] == c;
      Day02Checksum.CountIsMultiplicity(l, c);
    }
    if Day02Checksum.HasExactly(l, k) {
      var i :| 0 <= i < |l| && Day02Checksum.Count(l, l[i]) == k;
      Day02Checksum.CountIsMultiplicity(l, l[i]);
      assert l[i] in multiset(l);
      assert m[l[i]] == k;
    }
  }

  /** One line: its counter, its `check` list and the two tests on it. */
  method LineFlags(l: string) returns (has2: bool, has3: bool)
    ensures has2 <==> Day02Checksum.HasExactly(l, 2)
    ensures has3 <==> Day02Checksum.HasExactly(l, 3)
  {
    var check := Check(Counter(l));
    CheckAgrees(l, 2);
    CheckAgrees(l, 3);
    has2 := 2 in check;
    has3 := 3 in check;
  }

  /** The loop over the lines: `count2`, `count3` and the printed product. */
  method Checksum(lines: seq<string>) returns (count2: nat, count3: nat, checksum: int)
    ensures count2 == Day02Checksum.LinesWith(lines, 2)
    ensures count3 == Day02Checksum.LinesWith(lines, 3)
    ensures checksum == count2 * count3
  {
    count2, count3 := 0, 0;
    var n := 0;
    while n < |lines|
      invariant 0 <= n <= |lines|
      invariant count2 == Day02Checksum.LinesWith(lines[..n], 2)
      invariant count3 == Day02Checksum.LinesWith(lines[..n], 3)
    {
      var has2, has3 := LineFlags(Trim(lines[n]));
      Day02Checksum.LinesWithStep(lines, n, 2);
      Day02Checksum.LinesWithStep(lines, n, 3);
      if has2 {
        count2 := count2 + 1;
      }
      if has3 {
        count3 := count3 + 1;
      }
      n := n + 1;
    }
    assert lines[..n] == lines;
    checksum := count2 * count3;
  }
}
