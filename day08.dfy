/** Memory Maneuver (rust/src/day08.rs): a tree encoded as a list of numbers
    (child count, metadata count, the children, then the metadata), decoded
    with a cursor, and two sums over the decoded tree. */
module Day08 {

  import opened Wrappers

  datatype Node = Node(children: seq<Node>, metadata: seq<int>)

  /** `iter().sum()`, adding left to right. */
  function Sum(xs: seq<int>): int {
    if xs == [] then 0 else Sum(xs[..|xs| - 1]) + xs[|xs| - 1]
  }

  lemma {:induction false} SumAppend(a: seq<int>, b: seq<int>)
    ensures Sum(a + b) == Sum(a) + Sum(b)
    decreases |b|
  {
    if b == [] {
      assert a + b == a;
    } else {
      assert (a + b)[..|a + b| - 1] == a + b[..|b| - 1];
      SumAppend(a, b[..|b| - 1]);
    }
  }

  /** The number of iterations of `for _ in 0..n` on an `i32` n: none when
      n is negative. */
  function Count(n: int): (c: nat)
    ensures n >= 0 ==> c == n
    ensures n < 0 ==> c == 0
  {
    if n < 0 then 0 else n
  }

  /** The encoding the input follows: the header of two counts, the
      children's encodings, then the metadata. */
  function Encode(n: Node): (e: seq<int>)
    ensures |e| >= 2
    decreases n, 1
  {
    [|n.children|, |n.metadata|] + EncodeAll(n.children) + n.metadata
  }

  function EncodeAll(ns: seq<Node>): seq<int>
    decreases ns, 0
  {
    if ns == [] then [] else Encode(ns[0]) + EncodeAll(ns[1..])
  }

  /** Adds already decoded children in front of the rest. */
  function Prepend(cs: seq<Node>, r: Option<(seq<Node>, nat)>): Option<(seq<Node>, nat)> {
    match r
    case None => None
    case Some((rest, j)) => Some((cs + rest, j))
  }

  /** `Node::parse` from `index`: the node and the cursor after it, `None`
      where an index past the end would panic. */
  function Decode(numbers: seq<int>, index: nat): (r: Option<(Node, nat)>)
    ensures r.Some? ==> index + 2 <= r.value.1 <= |numbers|
    decreases |numbers| - index, 1
  {
    if index + 2 > |numbers| then None
    else
      var numChildren := numbers[index];
      var numMetadata := numbers[index + 1];
      match DecodeChildren(numbers, index + 2, Count(numChildren))
      case None => None
      case Some((children, j)) =>
        if j + Count(numMetadata) <= |numbers| then
          Some((Node(children, numbers[j..j + Count(numMetadata)]), j + Count(numMetadata)))
        else None
  }

  /** `k` children decoded one after the other from `index`. */
  function DecodeChildren(numbers: seq<int>, index: nat, k: nat): (r: Option<(seq<Node>, nat)>)
    requires index <= |numbers|
    ensures r.Some? ==> |r.value.0| == k && index <= r.value.1 <= |numbers|
    decreases |numbers| - index, 2, k
  {
    if k == 0 then Some(([], index))
    else
      match Decode(numbers, index)
      case None => None
      case Some((child, j)) => Prepend([child], DecodeChildren(numbers, j, k - 1))
  }

  /** `Node::parse`: reads both counts, the children recursively, then the
      metadata, moving the cursor past each number it reads. */
  method Parse(numbers: seq<int>, index: nat) returns (r: Option<Node>, cursor: nat)
    ensures Decode(numbers, index) == if r.Some? then Some((r.value, cursor)) else None
    decreases |numbers| - index
  {
    cursor := index;
    if cursor >= |numbers| {
      return None, cursor;
    }
    var numChildren := numbers[cursor];
    cursor := cursor + 1;
    if cursor >= |numbers| {
      return None, cursor;
    }
    var numMetadata := numbers[cursor];
    cursor := cursor + 1;

    var children: seq<Node> := [];
    var k := 0;
    PrependNothing(DecodeChildren(numbers, index + 2, Count(numChildren)));
    while k < numChildren
      invariant 0 <= k <= Count(numChildren) && |children| == k
      invariant index + 2 <= cursor <= |numbers|
      invariant DecodeChildren(numbers, index + 2, Count(numChildren))
             == Prepend(children, DecodeChildren(numbers, cursor, Count(numChildren) - k))
      decreases numChildren - k
    {
      var child, after := Parse(numbers, cursor);
      if child.None? {
        return None, after;
      }
      PrependTwice(children, child.value, DecodeChildren(numbers, after, Count(numChildren) - k - 1));
      children := children + [child.value];
      cursor := after;
      k := k + 1;
    }
    assert children + [] == children;

    var metadata: seq<int> := [];
    ghost var start := cursor;
    var m := 0;
    while m < numMetadata
      invariant 0 <= m <= Count(numMetadata) && cursor == start + m && cursor <= |numbers|
      invariant metadata == numbers[start..cursor]
      decreases numMetadata - m
    {
      if cursor >= |numbers| {
        return None, cursor;
      }
      assert numbers[start..cursor + 1] == numbers[start..cursor] + [numbers[cursor]];
      metadata := metadata + [numbers[cursor]];
      cursor := cursor + 1;
      m := m + 1;
    }
    r := Some(Node(children, metadata));
  }

  lemma PrependNothing(r: Option<(seq<Node>, nat)>)
    ensures Prepend([], r) == r
  {
    if r.Some? {
      assert [] + r.value.0 == r.value.0;
    }
  }

  lemma PrependTwice(cs: seq<Node>, c: Node, r: Option<(seq<Node>, nat)>)
    ensures Prepend(cs, Prepend([c], r)) == Prepend(cs + [c], r)
  {
    if r.Some? {
      assert cs + ([c] + r.value.0) == (cs + [c]) + r.value.0;
    }
  }

  /** The numbers from `index` on start with `e`. */
  predicate Matches(numbers: seq<int>, index: nat, e: seq<int>) {
    index + |e| <= |numbers| && forall k :: 0 <= k < |e| ==> numbers[index + k] == e[k]
  }

  /** A piece of a match is a match further on. */
  lemma MatchesPart(numbers: seq<int>, index: nat, e: seq<int>, a: nat, b: nat)
    requires Matches(numbers, index, e) && a <= b <= |e|
    ensures Matches(numbers, index + a, e[a..b])
  {
    forall k | 0 <= k < b - a
      ensures numbers[index + a + k] == e[a..b][k]
    {
      assert numbers[index + (a + k)] == e[a + k];
    }
  }

  lemma MatchedSlice(numbers: seq<int>, index: nat, e: seq<int>)
    requires Matches(numbers, index, e)
    ensures numbers[index..index + |e|] == e
  {
    assert forall k :: 0 <= k < |e| ==> numbers[index..index + |e|][k] == e[k];
  }

  /** Decoding an encoded tree gives it back and moves the cursor over
      exactly its encoding, whatever follows. */
  lemma {:induction false} DecodeEncode(numbers: seq<int>, index: nat, n: Node)
    requires Matches(numbers, index, Encode(n))
    ensures Decode(numbers, index) == Some((n, index + |Encode(n)|))
    decreases n, 1
  {
    var e := Encode(n);
    var all := EncodeAll(n.children);
    var j := index + 2 + |all|;
    var m := |n.metadata|;
    assert numbers[index + 0] == e[0] && numbers[index + 1] == e[1];
    MatchesPart(numbers, index, e, 2, 2 + |all|);
    assert e[2..2 + |all|] == all;
    DecodeEncodeAll(numbers, index + 2, n.children);
    assert numbers[j..j + m] == n.metadata by {
      MatchesPart(numbers, index, e, 2 + |all|, |e|);
      assert e[2 + |all|..|e|] == n.metadata;
      MatchedSlice(numbers, j, n.metadata);
    }
    assert n.children + [] == n.children;
  }

  lemma {:induction false} DecodeEncodeAll(numbers: seq<int>, index: nat, ns: seq<Node>)
    requires Matches(numbers, index, EncodeAll(ns))
    ensures DecodeChildren(numbers, index, |ns|) == Some((ns, index + |EncodeAll(ns)|))
    decreases ns, 0
  {
    if ns != [] {
      var e := EncodeAll(ns);
      var first := Encode(ns[0]);
      MatchesPart(numbers, index, e, 0, |first|);
      assert e[0..|first|] == first;
      DecodeEncode(numbers, index, ns[0]);
      MatchesPart(numbers, index, e, |first|, |e|);
      assert e[|first|..|e|] == EncodeAll(ns[1..]);
      DecodeEncodeAll(numbers, index + |first|, ns[1..]);
      assert [ns[0]] + ns[1..] == ns;
    }
  }

  /** The round trip at the start of a list: decoding an encoded tree gives
      it back, whatever follows it. */
  lemma DecodeEncoded(n: Node, rest: seq<int>)
    ensures Decode(Encode(n) + rest, 0) == Some((n, |Encode(n)|))
  {
    var numbers := Encode(n) + rest;
    assert forall k :: 0 <= k < |Encode(n)| ==> numbers[0 + k] == Encode(n)[k];
    DecodeEncode(numbers, 0, n);
  }

  /** Every number is non-negative: the counts then mean what they say. */
  predicate NonNegative(xs: seq<int>) {
    forall k :: 0 <= k < |xs| ==> xs[k] >= 0
  }

  /** A successful decode moves the cursor by exactly the encoded length of
      the tree it returns, and when no number is negative it read exactly
      that encoding. */
  lemma {:induction false} DecodeIsEncoding(numbers: seq<int>, index: nat)
    requires Decode(numbers, index).Some?
    ensures var (n, j) := Decode(numbers, index).value;
      && j == index + |Encode(n)|
      && (NonNegative(numbers) ==> numbers[index..j] == Encode(n))
    decreases |numbers| - index, 1
  {
    var (n, j) := Decode(numbers, index).value;
    var numChildren, numMetadata := numbers[index], numbers[index + 1];
    var (children, c) := DecodeChildren(numbers, index + 2, Count(numChildren)).value;
    DecodeChildrenIsEncoding(numbers, index + 2, Count(numChildren));
    assert n == Node(children, numbers[c..c + Count(numMetadata)]);
    if NonNegative(numbers) {
      assert numbers[index..j] == [numbers[index], numbers[index + 1]] + numbers[index + 2..c] + numbers[c..j];
    }
  }

  lemma {:induction false} DecodeChildrenIsEncoding(numbers: seq<int>, index: nat, k: nat)
    requires index <= |numbers| && DecodeChildren(numbers, index, k).Some?
    ensures var (cs, j) := DecodeChildren(numbers, index, k).value;
      && j == index + |EncodeAll(cs)|
      && (NonNegative(numbers) ==> numbers[index..j] == EncodeAll(cs))
    decreases |numbers| - index, 2, k
  {
    var (cs, j) := DecodeChildren(numbers, index, k).value;
    if k == 0 {
      assert cs == [];
    } else {
      var (child, c) := Decode(numbers, index).value;
      DecodeIsEncoding(numbers, index);
      DecodeChildrenIsEncoding(numbers, c, k - 1);
      var rest := DecodeChildren(numbers, c, k - 1).value.0;
      assert cs == [child] + rest;
      assert cs[0] == child && cs[1..] == rest;
      if NonNegative(numbers) {
        assert numbers[index..j] == numbers[index..c] + numbers[c..j];
      }
    }
  }

  /** `sum_metadata`: a node's own metadata plus its children's sums. */
  function SumMetadata(n: Node): int
    decreases n, 1
  {
    Sum(n.metadata) + SumChildren(n.children)
  }

  function SumChildren(ns: seq<Node>): int
    decreases ns, 0
  {
    if ns == [] then 0 else SumMetadata(ns[0]) + SumChildren(ns[1..])
  }

  /** Every metadata entry of the tree, in pre-order. */
  function AllMetadata(n: Node): seq<int>
    decreases n, 1
  {
    n.metadata + AllMetadataOf(n.children)
  }

  function AllMetadataOf(ns: seq<Node>): seq<int>
    decreases ns, 0
  {
    if ns == [] then [] else AllMetadata(ns[0]) + AllMetadataOf(ns[1..])
  }

  /** `sum_metadata` adds up every metadata entry of the tree, each once. */
  lemma {:induction false} SumMetadataIsTotal(n: Node)
    ensures SumMetadata(n) == Sum(AllMetadata(n))
    decreases n, 1
  {
    SumChildrenIsTotal(n.children);
    SumAppend(n.metadata, AllMetadataOf(n.children));
  }

  lemma {:induction false} SumChildrenIsTotal(ns: seq<Node>)
    ensures SumChildren(ns) == Sum(AllMetadataOf(ns))
    decreases ns, 0
  {
    if ns != [] {
      SumMetadataIsTotal(ns[0]);
      SumChildrenIsTotal(ns[1..]);
      SumAppend(AllMetadata(ns[0]), AllMetadataOf(ns[1..]));
    }
  }

  /** `value`: a leaf sums its metadata; otherwise each metadata entry m
      names child m (1-based) and adds that child's value. */
  function Value(n: Node): int
    decreases n, 1
  {
    if n.children == [] then Sum(n.metadata) else References(n, |n.metadata|)
  }

  /** The value added by the first `k` metadata entries of `n`. */
  function References(n: Node, k: nat): int
    requires k <= |n.metadata|
    decreases n, 0, k
  {
    if k == 0 then 0
    else
      var m := n.metadata[k - 1];
      References(n, k - 1) + (if 0 < m <= |n.children| then Value(n.children[m - 1]) else 0)
  }

  /** `References` looks at the first `k` entries only. */
  lemma {:induction false} ReferencesPrefix(cs: seq<Node>, a: seq<int>, b: seq<int>, k: nat)
    requires k <= |a|
    ensures References(Node(cs, a + b), k) == References(Node(cs, a), k)
  {
    if k > 0 {
      assert (a + b)[k - 1] == a[k - 1];
      ReferencesPrefix(cs, a, b, k - 1);
    }
  }

  /** Entries after the first `|a|` count as if they stood alone. */
  lemma {:induction false} ReferencesSuffix(cs: seq<Node>, a: seq<int>, b: seq<int>, k: nat)
    requires k <= |b|
    ensures References(Node(cs, a + b), |a| + k) == References(Node(cs, a), |a|) + References(Node(cs, b), k)
  {
    if k == 0 {
      ReferencesPrefix(cs, a, b, |a|);
    } else {
      assert (a + b)[|a| + k - 1] == b[k - 1];
      ReferencesSuffix(cs, a, b, k - 1);
    }
  }

  /** For a node with children, the value of two runs of metadata is the sum
      of their values: each entry counts on its own and as often as it
      occurs. */
  lemma ValueSplits(cs: seq<Node>, a: seq<int>, b: seq<int>)
    requires cs != []
    ensures Value(Node(cs, a + b)) == Value(Node(cs, a)) + Value(Node(cs, b))
  {
    ReferencesSuffix(cs, a, b, |b|);
  }

  /** One metadata entry of a node with children adds the value of the child
      it names (1-based), or nothing when it names no child. */
  lemma ValueOfEntry(cs: seq<Node>, m: int)
    requires cs != []
    ensures Value(Node(cs, [m])) == if 1 <= m <= |cs| then Value(cs[m - 1]) else 0
  {
    assert References(Node(cs, [m]), 1) == References(Node(cs, [m]), 0) + (if 0 < m <= |cs| then Value(cs[m - 1]) else 0);
  }

  /** `part1`: decode the tree at the start of the list and sum its
      metadata. */
  function Part1(numbers: seq<int>): (r: Option<int>)
    ensures r.Some? <==> Decode(numbers, 0).Some?
  {
    match Decode(numbers, 0)
    case None => None
    case Some((root, _)) => Some(SumMetadata(root))
  }

  /** `part2`: decode the tree and take its value. */
  function Part2(numbers: seq<int>): (r: Option<int>)
    ensures r.Some? <==> Decode(numbers, 0).Some?
  {
    match Decode(numbers, 0)
    case None => None
    case Some((root, _)) => Some(Value(root))
  }

  /** The puzzle's example tree, whose encoding is
      2 3 0 3 10 11 12 1 1 0 1 99 2 1 1 2. */
  function Sample(): Node {
    Node([Node([], [10, 11, 12]), Node([Node([], [99])], [2])], [1, 1, 2])
  }

  /** The example tree's encoding, built from the leaves up. */
  lemma SampleEncoding()
    ensures Encode(Sample()) == [2, 3, 0, 3, 10, 11, 12, 1, 1, 0, 1, 99, 2, 1, 1, 2]
  {
    var b := Node([], [10, 11, 12]);
    var d := Node([], [99]);
    var c := Node([d], [2]);
    assert EncodeAll([]) == [];
    assert Encode(b) == [0, 3, 10, 11, 12];
    assert Encode(d) == [0, 1, 99];
    assert EncodeAll([d]) == [0, 1, 99] by {
      assert [d][1..] == [];
    }
    assert Encode(c) == [1, 1, 0, 1, 99, 2];
    assert EncodeAll([c]) == [1, 1, 0, 1, 99, 2] by {
      assert [c][1..] == [];
    }
    assert EncodeAll([b, c]) == [0, 3, 10, 11, 12, 1, 1, 0, 1, 99, 2] by {
      assert [b, c][1..] == [c];
    }
  }

  /** The example's numbers decode to the example tree. */
  lemma SampleDecodes()
    ensures Decode([2, 3, 0, 3, 10, 11, 12, 1, 1, 0, 1, 99, 2, 1, 1, 2], 0) == Some((Sample(), 16))
  {
    SampleEncoding();
    DecodeEncoded(Sample(), []);
    assert Encode(Sample()) + [] == Encode(Sample());
  }

  /** Three sums the example needs. */
  lemma SampleSums()
    ensures Sum([10, 11, 12]) == 33 && Sum([1, 1, 2]) == 4 && Sum([99]) == 99 && Sum([2]) == 2
  {
    assert [10, 11, 12][..2] == [10, 11] && [10, 11][..1] == [10];
    assert [1, 1, 2][..2] == [1, 1] && [1, 1][..1] == [1];
  }

  /** The example's metadata sums to 138. */
  lemma SamplePart1()
    ensures Part1([2, 3, 0, 3, 10, 11, 12, 1, 1, 0, 1, 99, 2, 1, 1, 2]) == Some(138)
  {
    SampleDecodes();
    SampleSums();
    var d := Node([Node([], [99])], [2]);
    assert SumMetadata(Node([], [99])) == 99;
    assert SumChildren([Node([], [99])]) == 99;
    assert SumMetadata(d) == 101;
    assert SumChildren([d]) == 101;
    assert SumMetadata(Node([], [10, 11, 12])) == 33;
    assert SumMetadata(Sample()) == 4 + 33 + 101;
  }

  /** The example's value is 66. */
  lemma SamplePart2()
    ensures Part2([2, 3, 0, 3, 10, 11, 12, 1, 1, 0, 1, 99, 2, 1, 1, 2]) == Some(66)
  {
    SampleDecodes();
    SampleSums();
    var t := Sample();
    assert Value(Node([Node([], [99])], [2])) == 0;
    assert Value(t.children[0]) == 33;
    assert References(t, 2) == 66;
  }
}
