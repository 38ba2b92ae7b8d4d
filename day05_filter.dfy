/** Shortest polymer after removing one letter (5/problem2_v2.py): for each
    letter 'a'..'z', the line without that letter in either case is reduced
    with the stack of 5/problem1_v2.py, and the least reduced length is kept. */
module Day05Filter {

  import opened Text
  import opened Wrappers
  import opened Day05Stack

  /** The sentinel `ans = 1e5`, as an integer. */
  const Sentinel: int := 100000

  /** The `k`-th entry of `alpha`. */
  function Letter(k: nat): (c: char)
    requires k < 26
    ensures IsLower(c)
  {
    (97 + k) as char
  }

  /** `s2`: the units `c` with `c.upper() != rem and c.lower() != rem`, in order. */
  function Remove(line: string, rem: char): (s2: string)
    ensures |s2| <= |line|
    ensures forall c :: c in s2 <==> c in line && Upper(c) != rem && Lower(c) != rem
  {
    if line == [] then []
    else
      var c := line[|line| - 1];
      assert line == line[..|line| - 1] + [c];
      Remove(line[..|line| - 1], rem) + (if Upper(c) != rem && Lower(c) != rem then [c] else [])
  }

  /** Every removal can be reduced by the stack without a KeyError. */
  predicate Reducible(line: string) {
    forall k :: 0 <= k < 26 ==> KeysBeforeLast(Remove(line, Letter(k)))
  }

  /** The reduced length after removing the `k`-th letter. */
  function Removed(line: string, k: nat): (l: nat)
    requires k < 26 && Reducible(line)
    ensures l <= |line|
  {
    |Reduce(Remove(line, Letter(k)))|
  }

  /** `ans` after the first `n` letters. */
  function Best(line: string, n: nat): int
    requires n <= 26 && Reducible(line)
  {
    if n == 0 then Sentinel
    else
      var b := Best(line, n - 1);
      var l := Removed(line, n - 1);
      if l < b then l else b
  }

  /** `ans` is the least reduced length over all letters and the sentinel,
      and no more than the line's length. */
  lemma {:induction false} BestIsLeast(line: string, n: nat)
    requires n <= 26 && Reducible(line)
    ensures forall k :: 0 <= k < n ==> Best(line, n) <= Removed(line, k)
    ensures Best(line, n) <= Sentinel
    ensures Best(line, n) == Sentinel || exists k :: 0 <= k < n && Best(line, n) == Removed(line, k)
    ensures n > 0 ==> Best(line, n) <= |line|
  {
    if n > 0 {
      BestIsLeast(line, n - 1);
      var l := Removed(line, n - 1);
      assert Best(line, n) <= Best(line, n - 1) && Best(line, n) <= l;
      forall k | 0 <= k < n
        ensures Best(line, n) <= Removed(line, k)
      {
        if k < n - 1 {
          assert Best(line, n - 1) <= Removed(line, k);
        }
      }
      if l < Best(line, n - 1) {
        assert Best(line, n) == Removed(line, n - 1);
      }
    }
  }

  /** One line: the loop over `alpha` with the stack reduction inside. */
  method Shortest(m: map<char, char>, line: string) returns (ans: int)
    requires IsSwapMap(m) && Reducible(line)
    ensures ans == Best(line, 26)
  {
    ans := Sentinel;
    for k := 0 to 26
      invariant ans == Best(line, k)
    {
      var s2 := Remove(line, Letter(k));
      var stack := ReduceLine(m, s2);
      ans := if |stack| < ans then |stack| else ans;
    }
  }

  /** On a line of letters every removal can be reduced. */
  lemma LettersReducible(line: string)
    requires AllLetters(line)
    ensures Reducible(line)
  {
    forall k | 0 <= k < 26
      ensures KeysBeforeLast(Remove(line, Letter(k)))
    {
      var s2 := Remove(line, Letter(k));
      forall i | 0 <= i < |s2|
        ensures IsLetter(s2[i])
      {
        assert s2[i] in line;
      }
    }
  }

  /** The script: `ans` is reset for every stripped line and printed once at
      the end, so only the last line's answer is printed; with no lines the
      final `print(ans)` fails (None here). */
  method Script(lines: seq<string>) returns (printed: Option<int>)
    requires forall j :: 0 <= j < |lines| ==> Reducible(Trim(lines[j]))
    ensures lines == [] <==> printed == None
    ensures lines != [] ==> printed == Some(Best(Trim(lines[|lines| - 1]), 26))
  {
    var m := BuildSwapMap();
    printed := None;
    for j := 0 to |lines|
      invariant j == 0 <==> printed == None
      invariant j > 0 ==> printed == Some(Best(Trim(lines[j - 1]), 26))
    {
      var ans := Shortest(m, Trim(lines[j]));
      printed := Some(ans);
    }
  }
}
