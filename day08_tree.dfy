/** Memory Maneuver as the script 8/problem2.py does it: a `Tree` class whose
    cursor `i` over the tokens and name counter `name` are shared state,
    nodes named "S00", "S01", ... as they are parsed, a recursive `value`,
    and a metadata total kept in a counter that nothing resets. */
module Day08Tree {

  import opened Wrappers
  import Day08

  datatype Node = Node(name: string, children: seq<Node>, metadata: seq<int>)

  function DigitChar(d: nat): (c: char)
    requires d < 10
    ensures '0' <= c <= '9'
  {
    ('0' as int + d) as char
  }

  /** The decimal digits of `k`, most significant first. */
  function Decimal(k: nat): (s: string)
    ensures |s| >= 1
  {
    if k < 10 then [DigitChar(k)] else Decimal(k / 10) + [DigitChar(k % 10)]
  }

  /** `"S{:02d}".format(k)`: "S" and at least two digits. */
  function Label(k: nat): string {
    "S" + (if k < 10 then "0" else "") + Decimal(k)
  }

  /** The number a run of digits spells, read from the front. */
  function DigitsValue(s: string): nat {
    if s == [] then 0
    else
      var d := s[|s| - 1] as int - '0' as int;
      DigitsValue(s[..|s| - 1]) * 10 + (if 0 <= d then d else 0)
  }

  /** The counter value a name was made from: the digits after "S". */
  function Unlabel(name: string): nat {
    if name == [] then 0 else DigitsValue(name[1..])
  }

  lemma {:induction false} DecimalValue(k: nat)
    ensures DigitsValue(Decimal(k)) == k
  {
    if k >= 10 {
      var d := Decimal(k);
      assert d[..|d| - 1] == Decimal(k / 10) && d[|d| - 1] == DigitChar(k % 10);
      DecimalValue(k / 10);
    }
  }

  lemma {:induction false} LeadingZero(s: string)
    ensures DigitsValue("0" + s) == DigitsValue(s)
    decreases |s|
  {
    if s != [] {
      assert ("0" + s)[..|"0" + s| - 1] == "0" + s[..|s| - 1];
      LeadingZero(s[..|s| - 1]);
    } else {
      assert "0" + s == "0" && "0"[..0] == [];
    }
  }

  /** A name gives back the counter value it was made from, so different
      counter values give different names. */
  lemma LabelRoundTrip(k: nat)
    ensures Unlabel(Label(k)) == k
  {
    DecimalValue(k);
    if k < 10 {
      assert Label(k)[1..] == "0" + Decimal(k);
      LeadingZero(Decimal(k));
    } else {
      assert Label(k)[1..] == Decimal(k);
    }
  }

  /** Adds already parsed children in front of the rest. */
  function Prepend(cs: seq<Node>, r: Option<(seq<Node>, nat, nat)>): Option<(seq<Node>, nat, nat)> {
    match r
    case None => None
    case Some((rest, i, name)) => Some((cs + rest, i, name))
  }

  /** `parse_child` (and `parse`) from cursor `i` with name counter `name`:
      the node, the cursor after it and the next free counter value, `None`
      where `get_next` would index past the tokens. */
  function Read(s: seq<int>, i: nat, name: nat): (r: Option<(Node, nat, nat)>)
    ensures r.Some? ==> i + 2 <= r.value.1 <= |s| && name < r.value.2
    decreases |s| - i, 1
  {
    if i + 2 > |s| then None
    else
      var nChilds := s[i];
      var nMetadata := s[i + 1];
      match ReadChildren(s, i + 2, name + 1, Day08.Count(nChilds))
      case None => None
      case Some((children, j, next)) =>
        if j + Day08.Count(nMetadata) <= |s| then
          Some((Node(Label(name), children, s[j..j + Day08.Count(nMetadata)]), j + Day08.Count(nMetadata), next))
        else None
  }

  /** `k` children parsed one after the other. */
  function ReadChildren(s: seq<int>, i: nat, name: nat, k: nat): (r: Option<(seq<Node>, nat, nat)>)
    requires i <= |s|
    ensures r.Some? ==> |r.value.0| == k && i <= r.value.1 <= |s| && name <= r.value.2
    decreases |s| - i, 2, k
  {
    if k == 0 then Some(([], i, name))
    else
      match Read(s, i, name)
      case None => None
      case Some((child, j, next)) => Prepend([child], ReadChildren(s, j, next, k - 1))
  }

  /** The class attributes of `Tree`: the tokens, the cursor and the name
      counter, all shared by every call. */
  class Tree {
    var s: seq<int>
    var i: nat
    var name: nat

    /** The class attributes start at `i = 0` and `name = 0`; the script
        then stores its tokens in `Tree.s`. */
    constructor(tokens: seq<int>)
      ensures s == tokens && i == 0 && name == 0
    {
      s := tokens;
      i := 0;
      name := 0;
    }

    /** `get_next`: the token under the cursor, which then moves on;
        `None` where `s[i]` raises `IndexError`. */
    method GetNext() returns (x: Option<int>)
      modifies this
      ensures s == old(s) && name == old(name)
      ensures old(i) < |s| ==> x == Some(s[old(i)]) && i == old(i) + 1
      ensures old(i) >= |s| ==> x == None && i == old(i)
    {
      if i < |s| {
        x := Some(s[i]);
        i := i + 1;
      } else {
        x := None;
      }
    }

    /** `get_name`: the label of the counter, which then moves on. */
    method GetName() returns (x: string)
      modifies this
      ensures s == old(s) && i == old(i)
      ensures x == Label(old(name)) && name == old(name) + 1
    {
      x := Label(name);
      name := name + 1;
    }

    /** `parse_child`: name the node, read both counts, the children, then
        the metadata. */
    method ParseChild() returns (r: Option<Node>)
      modifies this
      ensures s == old(s)
      ensures r.Some? <==> Read(s, old(i), old(name)).Some?
      ensures r.Some? ==> Read(s, old(i), old(name)).value == (r.value, i, name)
      decreases |s| - i, 1
    {
      var nodeName := GetName();
      var nChilds := GetNext();
      if nChilds.None? {
        return None;
      }
      var nMetadata := GetNext();
      if nMetadata.None? {
        return None;
      }
      var children := ParseChildren(Day08.Count(nChilds.value));
      if children.None? {
        return None;
      }
      var metadata := ReadMetadata(Day08.Count(nMetadata.value));
      if metadata.None? {
        return None;
      }
      r := Some(Node(nodeName, children.value, metadata.value));
    }

    /** The loop `for x in range(n_childs)` of `parse_child`. */
    method ParseChildren(count: nat) returns (r: Option<seq<Node>>)
      requires i <= |s|
      modifies this
      ensures s == old(s)
      ensures r.Some? <==> ReadChildren(s, old(i), old(name), count).Some?
      ensures r.Some? ==> ReadChildren(s, old(i), old(name), count).value == (r.value, i, name)
      decreases |s| - i, 2
    {
      var children: seq<Node> := [];
      PrependNothing(ReadChildren(s, i, name, count));
      for x := 0 to count
        invariant s == old(s) && old(i) <= i <= |s| && |children| == x
        invariant ReadChildren(s, old(i), old(name), count) == Prepend(children, ReadChildren(s, i, name, count - x))
      {
        var child := ParseChild();
        if child.None? {
          return None;
        }
        PrependTwice(children, child.value, ReadChildren(s, i, name, count - x - 1));
        children := children + [child.value];
      }
      assert children + [] == children;
      r := Some(children);
    }

    /** The loop `for m in range(n_metadata)` of `parse_child`. */
    method ReadMetadata(count: nat) returns (r: Option<seq<int>>)
      requires i <= |s|
      modifies this
      ensures s == old(s) && name == old(name)
      ensures r.Some? <==> old(i) + count <= |s|
      ensures r.Some? ==> r.value == s[old(i)..old(i) + count] && i == old(i) + count
    {
      var metadata: seq<int> := [];
      for m := 0 to count
        invariant s == old(s) && name == old(name) && i == old(i) + m && i <= |s|
        invariant metadata == s[old(i)..i]
      {
        var token := GetNext();
        if token.None? {
          return None;
        }
        assert s[old(i)..i] == s[old(i)..i - 1] + [token.value];
        metadata := metadata + [token.value];
      }
      r := Some(metadata);
    }

    /** `parse`: the same steps as `parse_child`, reading its children with
        `parse_child`. */
    method Parse() returns (r: Option<Node>)
      modifies this
      ensures s == old(s)
      ensures r.Some? <==> Read(s, old(i), old(name)).Some?
      ensures r.Some? ==> Read(s, old(i), old(name)).value == (r.value, i, name)
    {
      r := ParseChild();
    }
  }

  lemma PrependNothing(r: Option<(seq<Node>, nat, nat)>)
    ensures Prepend([], r) == r
  {
    if r.Some? {
      assert [] + r.value.0 == r.value.0;
    }
  }

  lemma PrependTwice(cs: seq<Node>, c: Node, r: Option<(seq<Node>, nat, nat)>)
    ensures Prepend(cs, Prepend([c], r)) == Prepend(cs + [c], r)
  {
    if r.Some? {
      assert cs + ([c] + r.value.0) == (cs + [c]) + r.value.0;
    }
  }

  /** The tree without its names. */
  function Strip(n: Node): (t: Day08.Node)
    ensures |t.children| == |n.children| && t.metadata == n.metadata
    decreases n, 1
  {
    Day08.Node(StripAll(n.children), n.metadata)
  }

  function StripAll(ns: seq<Node>): (ts: seq<Day08.Node>)
    ensures |ts| == |ns|
    decreases ns, 0
  {
    if ns == [] then [] else [Strip(ns[0])] + StripAll(ns[1..])
  }

  lemma StripAllIndex(ns: seq<Node>, k: nat)
    requires k < |ns|
    ensures StripAll(ns)[k] == Strip(ns[k])
  {
    if k > 0 {
      StripAllIndex(ns[1..], k - 1);
    }
  }

  lemma StripAllAppend(a: seq<Node>, b: seq<Node>)
    ensures StripAll(a + b) == StripAll(a) + StripAll(b)
  {
    if a != [] {
      assert (a + b)[1..] == a[1..] + b;
      StripAllAppend(a[1..], b);
    } else {
      assert a + b == b;
    }
  }

  /** The script's parse and the Rust decoder read the same tree from the
      same tokens and stop at the same place. */
  lemma {:induction false} ReadIsDecode(s: seq<int>, i: nat, name: nat)
    ensures Read(s, i, name).Some? <==> Day08.Decode(s, i).Some?
    ensures Read(s, i, name).Some? ==>
      var (n, j, _) := Read(s, i, name).value;
      Day08.Decode(s, i).value == (Strip(n), j)
    decreases |s| - i, 1
  {
    if i + 2 <= |s| {
      ReadChildrenIsDecodeChildren(s, i + 2, name + 1, Day08.Count(s[i]));
    }
  }

  lemma {:induction false} ReadChildrenIsDecodeChildren(s: seq<int>, i: nat, name: nat, k: nat)
    requires i <= |s|
    ensures ReadChildren(s, i, name, k).Some? <==> Day08.DecodeChildren(s, i, k).Some?
    ensures ReadChildren(s, i, name, k).Some? ==>
      var (cs, j, _) := ReadChildren(s, i, name, k).value;
      Day08.DecodeChildren(s, i, k).value == (StripAll(cs), j)
    decreases |s| - i, 2, k
  {
    if k > 0 {
      ReadIsDecode(s, i, name);
      if Read(s, i, name).Some? {
        var (child, j, next) := Read(s, i, name).value;
        ReadChildrenIsDecodeChildren(s, j, next, k - 1);
        if ReadChildren(s, j, next, k - 1).Some? {
          var rest := ReadChildren(s, j, next, k - 1).value.0;
          StripAllAppend([child], rest);
        }
      }
    }
  }

  /** The names of the tree, in pre-order. */
  function Names(n: Node): seq<string>
    decreases n, 1
  {
    [n.name] + NamesOf(n.children)
  }

  function NamesOf(ns: seq<Node>): seq<string>
    decreases ns, 0
  {
    if ns == [] then [] else Names(ns[0]) + NamesOf(ns[1..])
  }

  /** The labels of the counter values `from` up to `to` (exclusive). */
  function Labels(from: nat, to: nat): (ls: seq<string>)
    requires from <= to
    ensures |ls| == to - from && forall p :: 0 <= p < to - from ==> ls[p] == Label(from + p)
  {
    seq(to - from, p requires 0 <= p < to - from => Label(from + p))
  }

  lemma LabelsJoin(a: nat, b: nat, c: nat)
    requires a <= b <= c
    ensures Labels(a, b) + Labels(b, c) == Labels(a, c)
  {
  }

  /** Parsing names the nodes with consecutive counter values in pre-order:
      the counter moves by the number of nodes read. */
  lemma {:induction false} ReadNames(s: seq<int>, i: nat, name: nat)
    requires Read(s, i, name).Some?
    ensures var (n, _, next) := Read(s, i, name).value;
      name <= next && Names(n) == Labels(name, next)
    decreases |s| - i, 1
  {
    var (n, _, next) := Read(s, i, name).value;
    var (children, _, next') := ReadChildren(s, i + 2, name + 1, Day08.Count(s[i])).value;
    ReadChildrenNames(s, i + 2, name + 1, Day08.Count(s[i]));
    assert next' == next && n.children == children;
    assert [Label(name)] == Labels(name, name + 1);
    LabelsJoin(name, name + 1, next);
  }

  lemma {:induction false} ReadChildrenNames(s: seq<int>, i: nat, name: nat, k: nat)
    requires i <= |s| && ReadChildren(s, i, name, k).Some?
    ensures var (cs, _, next) := ReadChildren(s, i, name, k).value;
      name <= next && NamesOf(cs) == Labels(name, next)
    decreases |s| - i, 2, k
  {
    var (cs, _, next) := ReadChildren(s, i, name, k).value;
    if k == 0 {
      assert cs == [];
    } else {
      var (child, j, mid) := Read(s, i, name).value;
      ReadNames(s, i, name);
      ReadChildrenNames(s, j, mid, k - 1);
      var rest := ReadChildren(s, j, mid, k - 1).value.0;
      assert cs == [child] + rest;
      assert cs[0] == child && cs[1..] == rest;
      LabelsJoin(name, mid, next);
    }
  }

  /** No two nodes of a parsed tree share a name. */
  lemma NamesDistinct(s: seq<int>, i: nat, name: nat)
    requires Read(s, i, name).Some?
    ensures var ns := Names(Read(s, i, name).value.0);
      forall p, q :: 0 <= p < q < |ns| ==> ns[p] != ns[q]
  {
    var (n, _, next) := Read(s, i, name).value;
    ReadNames(s, i, name);
    var ns := Names(n);
    forall p, q | 0 <= p < q < |ns|
      ensures ns[p] != ns[q]
    {
      LabelRoundTrip(name + p);
      LabelRoundTrip(name + q);
    }
  }

  /** `Node.value`: a leaf sums its metadata; otherwise each entry m with
      0 < m < len(children) + 1 adds the value of child m - 1. */
  function Value(n: Node): int
    decreases n, 1
  {
    if |n.children| == 0 then Day08.Sum(n.metadata) else Entries(n, |n.metadata|)
  }

  /** `v` after the loop has seen the first `k` metadata entries. */
  function Entries(n: Node, k: nat): int
    requires k <= |n.metadata|
    decreases n, 0, k
  {
    if k == 0 then 0
    else
      var m := n.metadata[k - 1];
      Entries(n, k - 1) + (if 0 < m < |n.children| + 1 then Value(n.children[m - 1]) else 0)
  }

  /** The script's `value` is the Rust `value` of the same tree. */
  lemma {:induction false} ValueIsRustValue(n: Node)
    ensures Value(n) == Day08.Value(Strip(n))
    decreases n, 1
  {
    if |n.children| != 0 {
      EntriesAreReferences(n, |n.metadata|);
    }
  }

  lemma {:induction false} EntriesAreReferences(n: Node, k: nat)
    requires k <= |n.metadata| && |n.children| != 0
    ensures Entries(n, k) == Day08.References(Strip(n), k)
    decreases n, 0, k
  {
    if k > 0 {
      EntriesAreReferences(n, k - 1);
      var m := n.metadata[k - 1];
      if 0 < m < |n.children| + 1 {
        ValueIsRustValue(n.children[m - 1]);
        StripAllIndex(n.children, m - 1);
      }
    }
  }

  /** The metadata total of a tree: its own entries and its children's. */
  function Total(n: Node): int
    decreases n, 1
  {
    Day08.Sum(n.metadata) + TotalOf(n.children, |n.children|)
  }

  /** The totals of the first `k` of `ns`. */
  function TotalOf(ns: seq<Node>, k: nat): int
    requires k <= |ns|
    decreases ns, 0, k
  {
    if k == 0 then 0 else TotalOf(ns, k - 1) + Total(ns[k - 1])
  }

  /** The total is the Rust `sum_metadata` of the same tree. */
  lemma {:induction false} TotalIsSumMetadata(n: Node)
    ensures Total(n) == Day08.SumMetadata(Strip(n))
    decreases n, 1
  {
    TotalOfIsSumChildren(n.children, |n.children|);
    assert n.children[..|n.children|] == n.children;
  }

  lemma {:induction false} TotalOfIsSumChildren(ns: seq<Node>, k: nat)
    requires k <= |ns|
    ensures TotalOf(ns, k) == Day08.SumChildren(StripAll(ns[..k]))
    decreases ns, 0, k
  {
    if k > 0 {
      TotalOfIsSumChildren(ns, k - 1);
      TotalIsSumMetadata(ns[k - 1]);
      assert ns[..k] == ns[..k - 1] + [ns[k - 1]];
      StripAllAppend(ns[..k - 1], [ns[k - 1]]);
      assert StripAll([ns[k - 1]]) == [Strip(ns[k - 1])] by {
        assert [ns[k - 1]][1..] == [];
      }
      SumChildrenAppend(StripAll(ns[..k - 1]), Strip(ns[k - 1]));
    } else {
      assert ns[..0] == [];
    }
  }

  lemma {:induction false} SumChildrenAppend(ts: seq<Day08.Node>, t: Day08.Node)
    ensures Day08.SumChildren(ts + [t]) == Day08.SumChildren(ts) + Day08.SumMetadata(t)
    decreases |ts|
  {
    if ts == [] {
      assert [] + [t] == [t] && [t][1..] == [];
    } else {
      assert (ts + [t])[1..] == ts[1..] + [t];
      SumChildrenAppend(ts[1..], t);
    }
  }

  /** `Node.metadata_count`, a class attribute that starts at 0 and is never
      reset. */
  class MetadataCount {
    var count: int

    constructor()
      ensures count == 0
    {
      count := 0;
    }

    /** `count_metadata`: adds the node's metadata to the shared count, then
        lets each child add its own, and returns the count. A second call
        on the same tree adds its total again. */
    method CountMetadata(n: Node) returns (r: int)
      modifies this
      ensures count == old(count) + Total(n) && r == count
      decreases n
    {
      count := count + Day08.Sum(n.metadata);
      for k := 0 to |n.children|
        invariant count == old(count) + Day08.Sum(n.metadata) + TotalOf(n.children, k)
      {
        var _ := CountMetadata(n.children[k]);
      }
      r := count;
    }
  }

  /** What the script prints: the value of the tree parsed from the
      tokens. */
  function Answer(tokens: seq<int>): Option<int> {
    match Read(tokens, 0, 0)
    case None => None
    case Some((root, _, _)) => Some(Value(root))
  }

  /** The script's steps: store the tokens, parse the root, take its
      value. */
  method Run(tokens: seq<int>) returns (r: Option<int>)
    ensures r == Answer(tokens)
  {
    var tree := new Tree(tokens);
    var root := tree.Parse();
    if root.None? {
      return None;
    }
    r := Some(Value(root.value));
  }

  /** The script prints the answer of the Rust `part2`. */
  lemma AnswerIsPart2(tokens: seq<int>)
    ensures Answer(tokens) == Day08.Part2(tokens)
  {
    ReadIsDecode(tokens, 0, 0);
    if Read(tokens, 0, 0).Some? {
      ValueIsRustValue(Read(tokens, 0, 0).value.0);
    }
  }
}
