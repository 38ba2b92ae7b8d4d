/** Shortest polymer by repeated passes (python/5/problem2.py): for each
    letter the line without that letter is reduced by left-to-right passes,
    each dropping the reacting pairs it meets, until a pass removes nothing
    or fewer than two units remain.

    The pass as written also drops the last unit when it reacts with its
    predecessor although that predecessor was already consumed ("aAa"
    becomes ""). `SweptFrom` takes a flag: `asWritten` keeps that check,
    otherwise the last unit is kept as the reactions require. */
module Day05Passes {

  import opened Text
  import Day05Stack
  import Day05Filter

  /** `D = abs(ord('a') - ord('A'))`. */
  const D: int := 32

  /** Units react when their character codes differ by exactly `D`. */
  predicate Reacts32(a: char, b: char) {
    a as int - b as int == D || b as int - a as int == D
  }

  /** No two adjacent units react. */
  predicate NoReaction(s: string) {
    forall k :: 0 <= k < |s| - 1 ==> !Reacts32(s[k], s[k + 1])
  }

  /** `filter(lambda x: x.lower() != chr(removeChar), origLine)`. */
  function Filtered(line: string, rem: char): (r: string)
    ensures |r| <= |line|
    ensures forall c :: c in r <==> c in line && Day05Stack.Lower(c) != rem
  {
    if line == [] then []
    else
      var c := line[|line| - 1];
      assert line == line[..|line| - 1] + [c];
      Filtered(line[..|line| - 1], rem) + (if Day05Stack.Lower(c) != rem then [c] else [])
  }

  /** The units a pass appends to `new_line` from index `i` on, with the
      `skip` flag as it stands at `i`. */
  function SweptFrom(line: string, i: nat, skip: bool, asWritten: bool): (r: string)
    requires i <= |line|
    ensures |r| + i <= |line|
    ensures skip && i < |line| ==> |r| + i + 1 <= |line|
    decreases |line| - i
  {
    if i == |line| then []
    else if skip then SweptFrom(line, i + 1, false, asWritten)
    else if i < |line| - 1 then
      if !Reacts32(line[i + 1], line[i]) then [line[i]] + SweptFrom(line, i + 1, false, asWritten)
      else SweptFrom(line, i + 1, true, asWritten)
    else
      // The last unit; for a single unit Python's `line[i - 1]` is the unit itself.
      var prev := if i == 0 then line[|line| - 1] else line[i - 1];
      if !asWritten || !Reacts32(prev, line[i]) then [line[i]] else []
  }

  /** One pass over the whole line. */
  function Sweep(line: string, asWritten: bool): (r: string)
    ensures |r| <= |line|
  {
    SweptFrom(line, 0, false, asWritten)
  }

  /** The `for i, c in enumerate(line)` loop of one pass. */
  method Pass(line: string, asWritten: bool) returns (newLine: string)
    ensures newLine == Sweep(line, asWritten)
  {
    newLine := "";
    var skip := false;
    var n := |line|;
    for i := 0 to |line|
      invariant newLine + SweptFrom(line, i, skip, asWritten) == Sweep(line, asWritten)
    {
      var c := line[i];
      if !skip {
        if i < n - 1 {
          if !Reacts32(line[i + 1], c) {
            newLine := newLine + [c];
          } else {
            skip := true;
          }
        } else {
          var prev := if i == 0 then line[|line| - 1] else line[i - 1];
          if !asWritten || !Reacts32(prev, c) {
            newLine := newLine + [c];
          }
        }
      } else {
        skip := false;
      }
    }
  }

  /** Passes until one removes nothing or fewer than two units remain. */
  function Settled(line: string, asWritten: bool): (r: string)
    ensures |r| <= |line|
    decreases |line|
  {
    if |line| < 2 then line
    else
      var p := Sweep(line, asWritten);
      if |p| < |line| then Settled(p, asWritten) else p
  }

  /** The `while N > len(line) >= 2` loop. */
  method Passes(line0: string, asWritten: bool) returns (line: string)
    ensures line == Settled(line0, asWritten)
  {
    line := line0;
    var n := |line| + 1;
    while n > |line| >= 2
      invariant |line| <= n
      invariant n > |line| ==> Settled(line, asWritten) == Settled(line0, asWritten)
      invariant n == |line| ==> line == Settled(line0, asWritten)
      decreases n
    {
      n := |line|;
      line := Pass(line, asWritten);
    }
  }

  /** The script: for every stripped line, the reduced length after
      removing each letter 'a'..'z'. */
  method Lengths(lines: seq<string>, asWritten: bool) returns (printed: seq<seq<int>>)
    ensures |printed| == |lines|
    ensures forall j :: 0 <= j < |lines| ==> |printed[j]| == 26
    ensures forall j, k :: 0 <= j < |lines| && 0 <= k < 26 ==>
      printed[j][k] == |Settled(Filtered(Trim(lines[j]), Day05Filter.Letter(k)), asWritten)|
  {
    printed := [];
    for j := 0 to |lines|
      invariant |printed| == j
      invariant forall j' :: 0 <= j' < j ==> |printed[j']| == 26
      invariant forall j', k :: 0 <= j' < j && 0 <= k < 26 ==>
        printed[j'][k] == |Settled(Filtered(Trim(lines[j']), Day05Filter.Letter(k)), asWritten)|
    {
      var origLine := Trim(lines[j]);
      var row := [];
      for k := 0 to 26
        invariant |row| == k
        invariant forall k' :: 0 <= k' < k ==> row[k'] == |Settled(Filtered(origLine, Day05Filter.Letter(k')), asWritten)|
      {
        var line := Passes(Filtered(origLine, Day05Filter.Letter(k)), asWritten);
        row := row + [|line|];
      }
      printed := printed + [row];
    }
  }

  /** A pass that removes nothing leaves the line unchanged, and the line has
      no reacting pair. */
  lemma {:induction false} FullSweepNoReaction(line: string, i: nat, asWritten: bool)
    requires i <= |line| && |SweptFrom(line, i, false, asWritten)| + i == |line|
    ensures SweptFrom(line, i, false, asWritten) == line[i..]
    ensures forall k :: i <= k < |line| - 1 ==> !Reacts32(line[k], line[k + 1])
    decreases |line| - i
  {
    if i < |line| - 1 {
      FullSweepNoReaction(line, i + 1, asWritten);
      assert line[i..] == [line[i]] + line[i + 1..];
    } else if i == |line| - 1 {
      assert line[i..] == [line[i]];
    }
  }

  /** Both versions stop with no reacting pair left. */
  lemma {:induction false} SettledNoReaction(line: string, asWritten: bool)
    ensures NoReaction(Settled(line, asWritten))
    decreases |line|
  {
    if |line| >= 2 {
      var p := Sweep(line, asWritten);
      if |p| < |line| {
        SettledNoReaction(p, asWritten);
      } else {
        FullSweepNoReaction(line, 0, asWritten);
        assert line[0..] == line;
      }
    }
  }

  /** The corrected pass drops units two at a time. */
  lemma {:induction false} SweepKeepsParity(line: string, i: nat)
    requires i <= |line|
    ensures (|line| - i - |SweptFrom(line, i, false, false)|) % 2 == 0
    decreases |line| - i
  {
    if i < |line| - 1 {
      if Reacts32(line[i + 1], line[i]) {
        SweepKeepsParity(line, i + 2);
      } else {
        SweepKeepsParity(line, i + 1);
      }
    }
  }

  /** The corrected passes keep the parity of the length. */
  lemma {:induction false} SettledKeepsParity(line: string)
    ensures (|line| - |Settled(line, false)|) % 2 == 0
    decreases |line|
  {
    if |line| >= 2 {
      var p := Sweep(line, false);
      SweepKeepsParity(line, 0);
      if |p| < |line| {
        SettledKeepsParity(p);
      }
    }
  }

  /** On letters, `D` apart is exactly `M`-related. */
  lemma Reacts32Letters(a: char, b: char)
    requires Day05Stack.IsLetter(a) && Day05Stack.IsLetter(b)
    ensures Reacts32(a, b) <==> Day05Stack.Reacts(a, b)
  {
  }

  /** On letters, the corrected pass is a sequence of reactions. */
  lemma {:induction false} SweepIsReaction(line: string, i: nat)
    requires Day05Stack.AllLetters(line) && i <= |line|
    ensures Day05Stack.ReducesTo(line[i..], SweptFrom(line, i, false, false))
    decreases |line| - i
  {
    if i < |line| - 1 {
      if Reacts32(line[i + 1], line[i]) {
        SweepIsReaction(line, i + 2);
        SweepDrops(line, i);
      } else {
        SweepIsReaction(line, i + 1);
        SweepKeeps(line, i);
      }
    } else if i == |line| - 1 {
      assert line[i..] == [line[i]];
    }
  }

  /** A reacting pair skipped by the pass is one reaction. */
  lemma SweepDrops(line: string, i: nat)
    requires Day05Stack.AllLetters(line) && i < |line| - 1 && Reacts32(line[i + 1], line[i])
    requires Day05Stack.ReducesTo(line[i + 2..], SweptFrom(line, i + 2, false, false))
    ensures Day05Stack.ReducesTo(line[i..], SweptFrom(line, i, false, false))
  {
    var rest := SweptFrom(line, i + 2, false, false);
    assert SweptFrom(line, i + 1, true, false) == rest;
    assert SweptFrom(line, i, false, false) == rest;
    Reacts32Letters(line[i], line[i + 1]);
    var t := line[i..];
    assert t[0] == line[i] && t[1] == line[i + 1];
    assert Day05Stack.Drop(t, 0) == line[i + 2..];
    Day05Stack.OneReaction(t, 0, rest);
  }

  /** A unit kept by the pass stays in front of the reactions after it. */
  lemma SweepKeeps(line: string, i: nat)
    requires i < |line| - 1 && !Reacts32(line[i + 1], line[i])
    requires Day05Stack.ReducesTo(line[i + 1..], SweptFrom(line, i + 1, false, false))
    ensures Day05Stack.ReducesTo(line[i..], SweptFrom(line, i, false, false))
  {
    var rest := SweptFrom(line, i + 1, false, false);
    assert SweptFrom(line, i, false, false) == [line[i]] + rest;
    Day05Stack.ReducesToPrepend([line[i]], line[i + 1..], rest);
    assert line[i..] == [line[i]] + line[i + 1..];
  }

  /** On letters, the corrected passes end in the polymer the stack of
      5/problem1_v2.py computes: both scripts report the same lengths. */
  lemma {:induction false} SettledIsReduce(line: string)
    requires Day05Stack.AllLetters(line)
    ensures Day05Stack.ReducesTo(line, Settled(line, false))
    ensures Settled(line, false) == Day05Stack.Reduce(line)
    decreases |line|
  {
    var r := Settled(line, false);
    if |line| >= 2 {
      var p := Sweep(line, false);
      SweepIsReaction(line, 0);
      assert line[0..] == line;
      if |p| < |line| {
        Day05Stack.ReducesToKeepsReduce(line, p);
        SettledIsReduce(p);
        Day05Stack.ReducesToTrans(line, p, r);
      }
    }
    SettledNoReaction(line, false);
    Day05Stack.ReducesToKeepsReduce(line, r);
    forall k | 0 <= k < |r| - 1
      ensures !Day05Stack.Reacts(r[k], r[k + 1])
    {
      Reacts32Letters(r[k], r[k + 1]);
    }
    Day05Stack.NormalFormUnique(line, r);
  }

  /** For a lower-case letter the filter is the removal of 5/problem2_v2.py. */
  lemma {:induction false} FilteredIsRemove(line: string, rem: char)
    requires Day05Stack.IsLower(rem)
    ensures Filtered(line, rem) == Day05Filter.Remove(line, rem)
  {
    if line != [] {
      FilteredIsRemove(line[..|line| - 1], rem);
    }
  }

  /** On a line of letters, each corrected length equals the stack length of
      5/problem2_v2.py for the same letter. */
  lemma CorrectedAgrees(line: string, k: nat)
    requires Day05Stack.AllLetters(line) && k < 26
    ensures Day05Filter.Reducible(line)
    ensures |Settled(Filtered(line, Day05Filter.Letter(k)), false)| == Day05Filter.Removed(line, k)
  {
    Day05Filter.LettersReducible(line);
    var rem := Day05Filter.Letter(k);
    FilteredIsRemove(line, rem);
    var s2 := Filtered(line, rem);
    forall i | 0 <= i < |s2|
      ensures Day05Stack.IsLetter(s2[i])
    {
      assert s2[i] in line;
    }
    SettledIsReduce(s2);
  }

  /** As written, "aAa" settles to "" although its only reaction leaves "a";
      corrected, it settles to "a". */
  lemma LastUnitDropped()
    ensures Settled("aAa", true) == ""
    ensures Settled("aAa", false) == "a" == Day05Stack.Reduce("aAa")
  {
    assert Sweep("aAa", true) == "";
    assert Sweep("aAa", false) == "a";
    assert "aAa"[..2] == "aA" && "aA"[..1] == "a" && "a"[..0] == "";
    assert Day05Stack.Reduce("a") == "a";
    assert Day05Stack.Reduce("aA") == "";
  }
}
