/** Polymer reduction with a stack (5/problem1_v2.py): the case-swap table
    `M`, and for each stripped line a stack that pops when the next unit is
    the opposite-case form of its top and pushes otherwise.

    Beside the stack algorithm this module defines what a reaction is
    (`ReducesTo`) and proves that the stack computes the one fully reacted
    polymer every sequence of reactions ends in. */
module Day05Stack {

  import opened Text

  predicate IsLower(c: char) { 'a' <= c <= 'z' }
  predicate IsUpper(c: char) { 'A' <= c <= 'Z' }
  predicate IsLetter(c: char) { IsLower(c) || IsUpper(c) }

  /** `str.upper` on ASCII; other characters are unchanged. */
  function Upper(c: char): (d: char)
    ensures IsLower(c) ==> IsUpper(d) && d as int == c as int - 32
    ensures !IsLower(c) ==> d == c
  {
    if IsLower(c) then (c as int - 32) as char else c
  }

  /** `str.lower` on ASCII; other characters are unchanged. */
  function Lower(c: char): (d: char)
    ensures IsUpper(c) ==> IsLower(d) && d as int == c as int + 32
    ensures !IsUpper(c) ==> d == c
  {
    if IsUpper(c) then (c as int + 32) as char else c
  }

  /** The entry `M[c]`: the same letter in the other case. */
  function Swap(c: char): (d: char)
    ensures IsLower(c) <==> IsUpper(d)
    ensures IsUpper(c) <==> IsLower(d)
  {
    if IsLower(c) then Upper(c) else Lower(c)
  }

  /** `M` is its own inverse. */
  lemma SwapInvolution(c: char)
    requires IsLetter(c)
    ensures Swap(Swap(c)) == c && Swap(c) != c
  {
  }

  /** `m` is the table `M`: the 52 ASCII letters, each mapped to `Swap`. */
  predicate IsSwapMap(m: map<char, char>) {
    && (forall c :: c in m <==> IsLetter(c))
    && forall c :: c in m ==> m[c] == Swap(c)
  }

  /** The loop filling `M` from 'a' to 'z'. */
  method BuildSwapMap() returns (m: map<char, char>)
    ensures IsSwapMap(m)
  {
    m := map[];
    for x := 0 to 26
      invariant forall c :: c in m <==> (IsLower(c) && c as int < 97 + x) || (IsUpper(c) && c as int < 65 + x)
      invariant forall c :: c in m ==> m[c] == Swap(c)
    {
      var c := (97 + x) as char;
      m := m[Lower(c) := Upper(c)];
      m := m[Upper(c) := Lower(c)];
    }
  }

  /** Two adjacent units react: opposite-case forms of the same letter. */
  predicate Reacts(a: char, b: char) {
    IsLetter(a) && b == Swap(a)
  }

  lemma ReactsSymmetric(a: char, b: char)
    requires Reacts(a, b)
    ensures Reacts(b, a)
  {
    SwapInvolution(a);
  }

  /** No two adjacent units react. */
  predicate Reduced(s: string) {
    forall i :: 0 <= i < |s| - 1 ==> !Reacts(s[i], s[i + 1])
  }

  predicate AllLetters(s: string) {
    forall i :: 0 <= i < |s| ==> IsLetter(s[i])
  }

  /** Every unit but the last becomes a stack top that is looked up in `M`,
      so each must be a letter; otherwise `M[stack[-1]]` raises KeyError. */
  predicate KeysBeforeLast(s: string) {
    forall i :: 0 <= i < |s| - 1 ==> IsLetter(s[i])
  }

  /** One unit against the stack: pop when it is `M` of the top, else push. */
  function Step(st: string, c: char): string
    requires st == [] || IsLetter(st[|st| - 1])
  {
    if st != [] && c == Swap(st[|st| - 1]) then st[..|st| - 1] else st + [c]
  }

  /** The stack after the units of `s`, starting from stack `st`. */
  function ReduceFrom(st: string, s: string): (r: string)
    requires AllLetters(st) && KeysBeforeLast(s)
    ensures forall k :: 0 <= k < |r| ==> IsLetter(r[k]) || (s != [] && r[k] == s[|s| - 1])
    ensures Reduced(st) ==> Reduced(r)
    ensures |r| <= |st| + |s|
  {
    if s == [] then st
    else
      var init := ReduceFrom(st, s[..|s| - 1]);
      assert forall k :: 0 <= k < |init| ==> IsLetter(init[k]);
      Step(init, s[|s| - 1])
  }

  /** The stack after a whole line. */
  function Reduce(s: string): (r: string)
    requires KeysBeforeLast(s)
    ensures Reduced(r)
    ensures |r| <= |s|
  {
    ReduceFrom([], s)
  }

  /** Units leave the stack in pairs: the stack is shorter than the units
      pushed by an even number. */
  lemma {:induction false} ReduceFromParity(st: string, s: string)
    requires AllLetters(st) && KeysBeforeLast(s)
    ensures (|st| + |s| - |ReduceFrom(st, s)|) % 2 == 0
    decreases |s|
  {
    if s != [] {
      ReduceFromParity(st, s[..|s| - 1]);
    }
  }

  /** The reduced line is shorter than the line by an even number. */
  lemma ReduceParity(s: string)
    requires KeysBeforeLast(s)
    ensures (|s| - |Reduce(s)|) % 2 == 0
  {
    ReduceFromParity([], s);
  }

  /** The `for c in line` loop over one line. */
  method ReduceLine(m: map<char, char>, line: string) returns (stack: string)
    requires IsSwapMap(m) && KeysBeforeLast(line)
    ensures stack == Reduce(line)
  {
    stack := [];
    for i := 0 to |line|
      invariant stack == Reduce(line[..i])
    {
      assert line[..i + 1][..i] == line[..i];
      var c := line[i];
      if stack != [] && c == m[stack[|stack| - 1]] {
        stack := stack[..|stack| - 1];
      } else {
        stack := stack + [c];
      }
    }
    assert line[..|line|] == line;
  }

  /** The script: build `M`, then print the reduced length of every stripped line. */
  method Lengths(lines: seq<string>) returns (printed: seq<int>)
    requires forall k :: 0 <= k < |lines| ==> KeysBeforeLast(Trim(lines[k]))
    ensures |printed| == |lines|
    ensures forall k :: 0 <= k < |lines| ==> printed[k] == |Reduce(Trim(lines[k]))|
  {
    var m := BuildSwapMap();
    printed := [];
    for k := 0 to |lines|
      invariant |printed| == k
      invariant forall j :: 0 <= j < k ==> printed[j] == |Reduce(Trim(lines[j]))|
    {
      var stack := ReduceLine(m, Trim(lines[k]));
      printed := printed + [|stack|];
    }
  }

  /** `a` without the pair at positions `i` and `i + 1`. */
  function Drop(a: string, i: nat): (r: string)
    requires i < |a| - 1
    ensures |r| == |a| - 2
  {
    a[..i] + a[i + 2..]
  }

  lemma DropAppend(a: string, i: nat, t: string)
    requires i < |a| - 1
    ensures Drop(a + t, i) == Drop(a, i) + t
  {
    assert (a + t)[..i] == a[..i] && (a + t)[i + 2..] == a[i + 2..] + t;
  }

  lemma DropPrepend(t: string, a: string, i: nat)
    requires i < |a| - 1
    ensures Drop(t + a, |t| + i) == t + Drop(a, i)
  {
    assert (t + a)[..|t| + i] == t + a[..i] && (t + a)[|t| + i + 2..] == a[i + 2..];
  }

  /** `a` turns into `b` by zero or more reactions, each removing one
      adjacent reacting pair. */
  ghost predicate ReducesTo(a: string, b: string)
    decreases |a|
  {
    a == b || exists i :: 0 <= i < |a| - 1 && Reacts(a[i], a[i + 1]) && ReducesTo(Drop(a, i), b)
  }

  /** One reaction at position `i`. */
  lemma OneReaction(a: string, i: nat, b: string)
    requires i < |a| - 1 && Reacts(a[i], a[i + 1]) && ReducesTo(Drop(a, i), b)
    ensures ReducesTo(a, b)
  {
  }

  lemma {:induction false} ReducesToTrans(a: string, b: string, c: string)
    requires ReducesTo(a, b) && ReducesTo(b, c)
    ensures ReducesTo(a, c)
    decreases |a|
  {
    if a != b {
      var i :| 0 <= i < |a| - 1 && Reacts(a[i], a[i + 1]) && ReducesTo(Drop(a, i), b);
      ReducesToTrans(Drop(a, i), b, c);
      OneReaction(a, i, c);
    }
  }

  /** Reactions inside a prefix are reactions of the whole polymer. */
  lemma {:induction false} ReducesToAppend(a: string, b: string, t: string)
    requires ReducesTo(a, b)
    ensures ReducesTo(a + t, b + t)
    decreases |a|
  {
    if a != b {
      var i :| 0 <= i < |a| - 1 && Reacts(a[i], a[i + 1]) && ReducesTo(Drop(a, i), b);
      ReducesToAppend(Drop(a, i), b, t);
      DropAppend(a, i, t);
      assert (a + t)[i] == a[i] && (a + t)[i + 1] == a[i + 1];
      OneReaction(a + t, i, b + t);
    }
  }

  /** Reactions inside a suffix are reactions of the whole polymer. */
  lemma {:induction false} ReducesToPrepend(t: string, a: string, b: string)
    requires ReducesTo(a, b)
    ensures ReducesTo(t + a, t + b)
    decreases |a|
  {
    if a != b {
      var i :| 0 <= i < |a| - 1 && Reacts(a[i], a[i + 1]) && ReducesTo(Drop(a, i), b);
      ReducesToPrepend(t, Drop(a, i), b);
      var j := |t| + i;
      DropPrepend(t, a, i);
      assert (t + a)[j] == a[i] && (t + a)[j + 1] == a[i + 1];
      OneReaction(t + a, j, t + b);
    }
  }

  /** Popping the stack is one reaction of the stack with the new unit on top. */
  lemma PopIsReaction(r: string, c: char)
    requires r != [] && IsLetter(r[|r| - 1]) && c == Swap(r[|r| - 1])
    ensures ReducesTo(r + [c], r[..|r| - 1])
  {
    var j := |r| - 1;
    assert Drop(r + [c], j) == r[..j];
    assert (r + [c])[j] == r[j] && (r + [c])[j + 1] == c;
    OneReaction(r + [c], j, r[..j]);
  }

  /** One more unit: the step of the stack is a reaction or nothing. */
  lemma StepIsReaction(a: string, r: string, c: char)
    requires AllLetters(r) && ReducesTo(a, r)
    ensures ReducesTo(a + [c], Step(r, c))
  {
    ReducesToAppend(a, r, [c]);
    if r != [] && c == Swap(r[|r| - 1]) {
      PopIsReaction(r, c);
      ReducesToTrans(a + [c], r + [c], r[..|r| - 1]);
    }
  }

  /** The stack's result is reached from the line by reactions. */
  lemma {:induction false} ReduceIsReaction(s: string)
    requires AllLetters(s)
    ensures ReducesTo(s, Reduce(s))
  {
    if s != [] {
      var init := s[..|s| - 1];
      ReduceIsReaction(init);
      StepIsReaction(init, Reduce(init), s[|s| - 1]);
      assert init + [s[|s| - 1]] == s;
    }
  }

  /** The stack can be run on a split line piece by piece. */
  lemma {:induction false} ReduceFromAppend(st: string, x: string, y: string)
    requires AllLetters(st) && AllLetters(x) && AllLetters(y)
    ensures ReduceFrom(st, x + y) == ReduceFrom(ReduceFrom(st, x), y)
    decreases |y|
  {
    if y == [] {
      assert x + y == x;
    } else {
      assert (x + y)[..|x + y| - 1] == x + y[..|y| - 1];
      ReduceFromAppend(st, x, y[..|y| - 1]);
    }
  }

  /** A reacting pair pushed on a reduced stack leaves it as it was. */
  lemma PairCancels(st: string, p: char, q: char)
    requires AllLetters(st) && Reduced(st) && Reacts(p, q)
    ensures ReduceFrom(st, [p, q]) == st
  {
    StepPair(st, p, q);
    var one := Step(st, p);
    assert [p, q][..1] == [p];
    assert [p][..0] == [];
    assert ReduceFrom(st, [p]) == one;
  }

  /** The two steps of a reacting pair: the second undoes the first. */
  lemma StepPair(st: string, p: char, q: char)
    requires AllLetters(st) && Reduced(st) && Reacts(p, q)
    ensures AllLetters(Step(st, p)) && Step(Step(st, p), q) == st
  {
    SwapInvolution(p);
    var one := Step(st, p);
    if st != [] && p == Swap(st[|st| - 1]) {
      var w, top := st[..|st| - 1], st[|st| - 1];
      assert one == w;
      SwapInvolution(top);
      assert q == top;
      if w != [] {
        assert !Reacts(w[|w| - 1], top);
      }
      assert w + [q] == st;
    } else {
      assert one == st + [p];
    }
  }

  /** One reaction does not change what the stack computes. */
  lemma ReactionKeepsReduce(a: string, i: nat)
    requires AllLetters(a) && i < |a| - 1 && Reacts(a[i], a[i + 1])
    ensures Reduce(Drop(a, i)) == Reduce(a)
  {
    var u, v := a[..i], a[i + 2..];
    assert a == u + [a[i], a[i + 1]] + v;
    ReduceFromAppend([], u + [a[i], a[i + 1]], v);
    ReduceFromAppend([], u, [a[i], a[i + 1]]);
    PairCancels(Reduce(u), a[i], a[i + 1]);
    ReduceFromAppend([], u, v);
  }

  lemma {:induction false} ReducesToKeepsReduce(a: string, b: string)
    requires AllLetters(a) && ReducesTo(a, b)
    ensures AllLetters(b) && Reduce(a) == Reduce(b)
    decreases |a|
  {
    if a != b {
      var i :| 0 <= i < |a| - 1 && Reacts(a[i], a[i + 1]) && ReducesTo(Drop(a, i), b);
      ReactionKeepsReduce(a, i);
      ReducesToKeepsReduce(Drop(a, i), b);
    }
  }

  /** A polymer with no reacting pair is left as it is. */
  lemma {:induction false} ReduceOfReduced(s: string)
    requires AllLetters(s) && Reduced(s)
    ensures Reduce(s) == s
  {
    if s != [] {
      var init := s[..|s| - 1];
      ReduceOfReduced(init);
      if |init| > 0 {
        assert !Reacts(init[|init| - 1], s[|s| - 1]);
      }
      assert init + [s[|s| - 1]] == s;
    }
  }

  /** Every sequence of reactions that ends with no reacting pair ends in
      the stack's result: the fully reacted polymer is unique. */
  lemma NormalFormUnique(a: string, b: string)
    requires AllLetters(a) && ReducesTo(a, b) && Reduced(b)
    ensures b == Reduce(a)
  {
    ReducesToKeepsReduce(a, b);
    ReduceOfReduced(b);
  }

  /** "abBA" reacts away completely. */
  lemma SampleReduce()
    ensures Reduce("abBA") == ""
  {
    var a: string := "a";
    assert a[..0] == [];
    assert Reduce(a) == a;
    var ab := a + ['b'];
    assert ab[..1] == a;
    assert Reduce(ab) == ab;
    var abB := ab + ['B'];
    assert abB[..2] == ab;
    assert Reduce(abB) == a;
    var abBA := abB + ['A'];
    assert abBA[..3] == abB;
    assert abBA == "abBA";
  }

  /** "aabAAB" has no reacting pair and is left as it is. */
  lemma SampleUnreactive()
    ensures Reduce("aabAAB") == "aabAAB"
  {
    ReduceOfReduced("aabAAB");
  }
}
