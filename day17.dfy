/** rust/src/day17.rs: clay veins from the scan, and water running down from
    the spring, spreading over clay and settling between walls. */
module Day17 {

  import opened Wrappers
  import opened Tokens

  /** A square (x, y) of the scan; y grows downwards. */
  type Cell = (int, int)

  const Spring: Cell := (500, 0)

  // ---------------------------------------------------------------------
  // The scan

  /** One scan line: "x=a, y=b..c" is a vertical vein at x = a, "y=a,
      x=b..c" a horizontal one at y = a. */
  datatype Vein = Vein(vertical: bool, at: int, from: int, to: int)

  /** The i-th square of a vein. */
  function Point(v: Vein, i: int): Cell {
    if v.vertical then (v.at, i) else (i, v.at)
  }

  /** The clay squares a vein covers: none when the range is reversed. */
  function Cells(v: Vein): (cells: set<Cell>)
    ensures forall c :: c in cells <==>
      if v.vertical then c.0 == v.at && v.from <= c.1 <= v.to
      else c.1 == v.at && v.from <= c.0 <= v.to
  {
    var cells := set i | v.from <= i <= v.to :: Point(v, i);
    assert forall c: Cell :: c == Point(v, if v.vertical then c.1 else c.0) ==>
      (c in cells <==> v.from <= (if v.vertical then c.1 else c.0) <= v.to);
    cells
  }

  /** One line of `parse_input`: the part before ", " gives the name and
      the fixed coordinate, the part after it the range "b..c" (its name
      is not looked at, and any name other than "x" in front makes the
      vein horizontal). A missing '=', a missing part or a number that is
      not an i32 makes the source panic: None here. */
  function ParseLine(line: string): (r: Option<Vein>)
    ensures r.Some? ==> I32_MIN <= r.value.at <= I32_MAX
    ensures r.Some? ==> I32_MIN <= r.value.from <= I32_MAX && I32_MIN <= r.value.to <= I32_MAX
  {
    var parts := SplitStr(line, ", ");
    match Find(parts[0], '=')
    case None => None
    case Some(i) =>
      var first := ParseI32(parts[0][i + 1..]);
      if first.None? || |parts| < 2 then None
      else
        match Find(parts[1], '=')
        case None => None
        case Some(j) =>
          var range := SplitStr(parts[1][j + 1..], "..");
          var start := ParseI32(range[0]);
          if start.None? || |range| < 2 then None
          else
            var end := ParseI32(range[1]);
            if end.None? then None
            else Some(Vein(parts[0][..i] == "x", first.value, start.value, end.value))
  }

  /** A vein written the way the scan writes it. */
  function ShowVein(v: Vein): string {
    (if v.vertical then "x=" else "y=") + ShowInt(v.at) + ", "
    + (if v.vertical then "y=" else "x=") + ShowInt(v.from) + ".." + ShowInt(v.to)
  }

  /** "n=" followed by text: '=' is found at index 1. */
  lemma FindAfterName(name: char, s: string)
    requires name != '='
    ensures Find([name, '='] + s, '=') == Some(1)
  {
    var w := [name, '='] + s;
    assert w[1..] == ['='] + s;
  }

  /** The first part of a written vein: its name and fixed coordinate. */
  function NamePart(v: Vein): string {
    [if v.vertical then 'x' else 'y', '='] + ShowInt(v.at)
  }

  /** The numbers of the range of a written vein. */
  function RangeText(v: Vein): string {
    ShowInt(v.from) + ".." + ShowInt(v.to)
  }

  /** The second part of a written vein: the other name and the range. */
  function RangePart(v: Vein): string {
    [if v.vertical then 'y' else 'x', '='] + RangeText(v)
  }

  /** A written vein splits at ", " into its two parts. */
  lemma SplitVein(v: Vein)
    ensures SplitStr(ShowVein(v), ", ") == [NamePart(v), RangePart(v)]
  {
    var a, b := NamePart(v), RangePart(v);
    ShowIntChars(v.at, ',');
    ShowIntChars(v.from, ',');
    ShowIntChars(v.to, ',');
    assert ',' !in b;
    assert [a, b][1..] == [b];
    assert ShowVein(v) == JoinStr([a, b], ", ");
    SplitStrJoin([a, b], ", ");
  }

  /** The range of a written vein splits at ".." into its two numbers. */
  lemma SplitRange(v: Vein)
    ensures SplitStr(RangeText(v), "..") == [ShowInt(v.from), ShowInt(v.to)]
  {
    var f, t := ShowInt(v.from), ShowInt(v.to);
    ShowIntChars(v.from, '.');
    ShowIntChars(v.to, '.');
    assert [f, t][1..] == [t];
    assert RangeText(v) == JoinStr([f, t], "..");
    SplitStrJoin([f, t], "..");
  }

  /** The first part names the vein's direction and gives its coordinate. */
  lemma ReadNamePart(v: Vein)
    requires I32_MIN <= v.at <= I32_MAX
    ensures Find(NamePart(v), '=') == Some(1)
    ensures ParseI32(NamePart(v)[2..]) == Some(v.at)
    ensures (NamePart(v)[..1] == "x") == v.vertical
  {
    var a := NamePart(v);
    FindAfterName(if v.vertical then 'x' else 'y', ShowInt(v.at));
    assert a[2..] == ShowInt(v.at);
    ParseShowI32(v.at);
  }

  /** The second part gives the range's two ends. */
  lemma ReadRangePart(v: Vein)
    requires I32_MIN <= v.from <= I32_MAX && I32_MIN <= v.to <= I32_MAX
    ensures Find(RangePart(v), '=') == Some(1)
    ensures SplitStr(RangePart(v)[2..], "..") == [ShowInt(v.from), ShowInt(v.to)]
    ensures ParseI32(ShowInt(v.from)) == Some(v.from) && ParseI32(ShowInt(v.to)) == Some(v.to)
  {
    var b := RangePart(v);
    FindAfterName(if v.vertical then 'y' else 'x', RangeText(v));
    assert b[2..] == RangeText(v);
    SplitRange(v);
    ParseShowI32(v.from);
    ParseShowI32(v.to);
  }

  /** Parsing a written vein gives it back. */
  lemma ParseShowLine(v: Vein)
    requires I32_MIN <= v.at <= I32_MAX
    requires I32_MIN <= v.from <= I32_MAX && I32_MIN <= v.to <= I32_MAX
    ensures ParseLine(ShowVein(v)) == Some(v)
  {
    SplitVein(v);
    ReadNamePart(v);
    ReadRangePart(v);
  }

  /** The clay of all lines, or None when a line does not parse. */
  function ClayOf(lines: seq<string>): (r: Option<set<Cell>>)
  {
    if lines == [] then Some({})
    else
      match ClayOf(lines[..|lines| - 1])
      case None => None
      case Some(clay) =>
        match ParseLine(lines[|lines| - 1])
        case None => None
        case Some(v) => Some(clay + Cells(v))
  }

  /** The clay of a list of veins. */
  function Union(veins: seq<Vein>): set<Cell> {
    if veins == [] then {} else Union(veins[..|veins| - 1]) + Cells(veins[|veins| - 1])
  }

  /** A scan of veins, one per line. */
  function ShowVeins(veins: seq<Vein>): (lines: seq<string>)
    ensures |lines| == |veins|
  {
    seq(|veins|, k requires 0 <= k < |veins| => ShowVein(veins[k]))
  }

  /** Parsing a written scan gives back exactly the clay of its veins. */
  lemma {:induction false} ParseShowVeins(veins: seq<Vein>)
    requires forall k :: 0 <= k < |veins| ==>
      I32_MIN <= veins[k].at <= I32_MAX && I32_MIN <= veins[k].from <= I32_MAX && I32_MIN <= veins[k].to <= I32_MAX
    ensures ClayOf(ShowVeins(veins)) == Some(Union(veins))
  {
    if veins != [] {
      var n := |veins| - 1;
      assert ShowVeins(veins)[..n] == ShowVeins(veins[..n]);
      ParseShowVeins(veins[..n]);
      ParseShowLine(veins[n]);
    }
  }

  /** `parse_input`: every square of every vein, line by line. */
  method ParseInput(lines: seq<string>) returns (r: Option<set<Cell>>)
    ensures r == ClayOf(lines)
  {
    var clay: set<Cell> := {};
    var k := 0;
    while k < |lines|
      invariant 0 <= k <= |lines|
      invariant ClayOf(lines[..k]) == Some(clay)
    {
      assert lines[..k + 1][..k] == lines[..k];
      var v := ParseLine(lines[k]);
      if v.None? {
        NoneStays(lines, k + 1);
        return None;
      }
      clay := AddVein(clay, v.value);
      k := k + 1;
    }
    assert lines[..k] == lines;
    return Some(clay);
  }

  /** The inner loop of `parse_input`: every square of one vein goes in. */
  method AddVein(clay: set<Cell>, vein: Vein) returns (r: set<Cell>)
    ensures r == clay + Cells(vein)
  {
    r := clay;
    var i := vein.from;
    while i <= vein.to
      invariant vein.from <= i && (i <= vein.to + 1 || i == vein.from)
      invariant r == clay + set j | vein.from <= j < i :: Point(vein, j)
    {
      assert (set j | vein.from <= j < i + 1 :: Point(vein, j)) == (set j | vein.from <= j < i :: Point(vein, j)) + {Point(vein, i)};
      r := r + {Point(vein, i)};
      i := i + 1;
    }
    assert (set j | vein.from <= j < i :: Point(vein, j)) == Cells(vein);
  }

  /** Once a line fails to parse, so does every longer input. */
  lemma {:induction false} NoneStays(lines: seq<string>, k: nat)
    requires k <= |lines| && ClayOf(lines[..k]).None?
    ensures ClayOf(lines).None?
    decreases |lines| - k
  {
    if k < |lines| {
      assert lines[..k + 1][..k] == lines[..k];
      NoneStays(lines, k + 1);
    } else {
      assert lines[..k] == lines;
    }
  }

  // ---------------------------------------------------------------------
  // Extent of the clay

  /** The y range of the clay (`Grid::new`), with its x range as well, which
      only the proofs use. */
  method Extent(cells: set<Cell>) returns (minY: int, maxY: int, ghost minX: int, ghost maxX: int)
    requires cells != {}
    ensures forall c :: c in cells ==> minY <= c.1 <= maxY && minX <= c.0 <= maxX
    ensures (exists c :: c in cells && c.1 == minY) && (exists c :: c in cells && c.1 == maxY)
  {
    var c :| c in cells;
    minY, maxY, minX, maxX := c.1, c.1, c.0, c.0;
    var rest := cells - {c};
    while rest != {}
      invariant rest <= cells
      invariant forall d :: d in cells - rest ==> minY <= d.1 <= maxY && minX <= d.0 <= maxX
      invariant (exists d :: d in cells && d.1 == minY) && (exists d :: d in cells && d.1 == maxY)
      decreases |rest|
    {
      var d :| d in rest;
      if d.1 < minY { minY := d.1; }
      if d.1 > maxY { maxY := d.1; }
      if d.0 < minX { minX := d.0; }
      if d.0 > maxX { maxX := d.0; }
      rest := rest - {d};
    }
  }

  // ---------------------------------------------------------------------
  // Sets of squares

  /** The squares (i, y) with from <= i <= to. */
  function Row(from: int, to: int, y: int): (row: set<Cell>)
    ensures forall c :: c in row <==> c.1 == y && from <= c.0 <= to
  {
    set i | from <= i <= to :: (i, y)
  }

  /** The rectangle the water of one run stays in. */
  function Box(left: int, right: int, top: int, bottom: int): (box: set<Cell>)
    ensures forall c :: c in box <==> left <= c.0 <= right && top <= c.1 <= bottom
  {
    set x: int, y: int | left <= x <= right && top <= y <= bottom :: (x, y)
  }

  /** A row segment inside the box's columns and rows lies in the box. */
  lemma RowInBox(from: int, to: int, y: int, left: int, right: int, top: int, bottom: int)
    requires left <= from && to <= right && top <= y <= bottom
    ensures Row(from, to, y) <= Box(left, right, top, bottom)
  {
  }

  /** Dropping the top row of a box gives a part of it. */
  lemma BoxBelow(left: int, right: int, top: int, bottom: int)
    ensures Box(left, right, top + 1, bottom) <= Box(left, right, top, bottom)
  {
  }

  /** A set that grew only inside s agrees with the old one outside s. */
  lemma SameOutside(a: set<Cell>, b: set<Cell>, s: set<Cell>)
    requires a <= b <= a + s
    ensures b - s == a - s
  {
  }

  /** Every part of a finite set is at most as large as the set. */
  lemma {:induction false} SubsetSize<T>(a: set<T>, b: set<T>)
    requires a <= b
    ensures |a| <= |b|
    decreases |b|
  {
    if a != {} {
      var x :| x in a;
      SubsetSize(a - {x}, b - {x});
    }
  }

  /** The number of squares of the box that are not wet, counted one
      square at a time; it bounds the recursion of the water. */
  ghost function Dry(box: set<Cell>, wet: set<Cell>): nat
    decreases |box|
  {
    if box == {} then 0
    else
      var c :| c in box;
      (if c in wet then 0 else 1) + Dry(box - {c}, wet)
  }

  /** The count is the size of the dry part of the box. */
  lemma {:induction false} DryCount(box: set<Cell>, wet: set<Cell>)
    ensures Dry(box, wet) == |box - wet|
    decreases |box|
  {
    if box != {} {
      var c :| c in box && Dry(box, wet) == (if c in wet then 0 else 1) + Dry(box - {c}, wet);
      DryCount(box - {c}, wet);
      if c in wet {
        assert box - wet == (box - {c}) - wet;
      } else {
        assert box - wet == ((box - {c}) - wet) + {c};
      }
    }
  }

  /** More water leaves no more of the box dry. */
  lemma DryLess(box: set<Cell>, before: set<Cell>, after: set<Cell>)
    requires before <= after
    ensures Dry(box, after) <= Dry(box, before)
  {
    DryCount(box, before);
    DryCount(box, after);
    SubsetSize(box - after, box - before);
  }

  /** A square that joins the water leaves one fewer square of the box
      still dry. */
  lemma Shrinks(box: set<Cell>, before: set<Cell>, after: set<Cell>, c: Cell)
    requires before <= after && c in box && c !in before && c in after
    ensures Dry(box, after) < Dry(box, before)
  {
    DryCount(box, before);
    DryCount(box, after);
    SubsetSize(box - after, (box - before) - {c});
  }

  // ---------------------------------------------------------------------
  // Where the water goes

  /** Water moves from a square to the one below it or to either side. */
  predicate Feeds(a: Cell, b: Cell) {
    b == (a.0, a.1 + 1) || b == (a.0 - 1, a.1) || b == (a.0 + 1, a.1)
  }

  /** A path of wet squares from the spring, each step down, left or right. */
  ghost predicate Path(p: seq<Cell>, wet: set<Cell>) {
    && |p| > 0 && p[0] == Spring
    && (forall k :: 0 <= k < |p| ==> p[k] in wet)
    && (forall k :: 0 < k < |p| ==> Feeds(p[k - 1], p[k]))
  }

  /** The square is at the end of a wet path from the spring. */
  ghost predicate Reached(c: Cell, wet: set<Cell>) {
    exists p :: Path(p, wet) && p[|p| - 1] == c
  }

  /** Square i of the order, past the first, is fed by an earlier one. */
  ghost predicate FedAt(order: seq<Cell>, i: int) {
    0 < i < |order| && exists j :: 0 <= j < i && Feeds(order[j], order[i])
  }

  /** Each square after the first is fed by an earlier one. */
  ghost predicate FedInOrder(order: seq<Cell>) {
    forall i {:trigger FedAt(order, i)} :: 0 < i < |order| ==> FedAt(order, i)
  }

  /** Clay or water of either kind below c. */
  predicate Floor(clay: set<Cell>, flowing: set<Cell>, resting: set<Cell>, c: Cell) {
    var below := (c.0, c.1 + 1);
    below in clay || below in flowing || below in resting
  }

  /** Every running square above the last row, other than those pending,
      has a floor. */
  ghost predicate FallsIn(clay: set<Cell>, flowing: set<Cell>, resting: set<Cell>, pending: set<Cell>, maxY: int) {
    forall c {:trigger Floor(clay, flowing, resting, c)} ::
      c in flowing && c !in pending && c.1 < maxY ==> Floor(clay, flowing, resting, c)
  }

  /** Clay or resting water at c. */
  predicate Solid(clay: set<Cell>, resting: set<Cell>, c: Cell) {
    c in clay || c in resting
  }

  /** Clay or resting water below c and on both sides of it. */
  predicate HeldBy(clay: set<Cell>, resting: set<Cell>, c: Cell) {
    Solid(clay, resting, (c.0, c.1 + 1)) && Solid(clay, resting, (c.0 - 1, c.1)) && Solid(clay, resting, (c.0 + 1, c.1))
  }

  /** Every resting square is held. */
  ghost predicate HeldIn(clay: set<Cell>, resting: set<Cell>) {
    forall c {:trigger HeldBy(clay, resting, c)} :: c in resting ==> HeldBy(clay, resting, c)
  }

  /** Resting water stays held when more gets blocked and the new resting
      squares are held too. */
  lemma StillHeld(clay: set<Cell>, resting: set<Cell>, resting': set<Cell>)
    requires HeldIn(clay, resting) && resting <= resting'
    requires forall c :: c in resting' && c !in resting ==> HeldBy(clay, resting', c)
    ensures HeldIn(clay, resting')
  {
    forall c | c in resting'
      ensures HeldBy(clay, resting', c)
    {
      if c in resting {
        assert HeldBy(clay, resting, c);
      }
    }
  }

  /** Running water keeps falling when more gets filled and when the only
      new running squares either have a floor or are pending. */
  lemma FallsStill(clay: set<Cell>, flowing: set<Cell>, resting: set<Cell>, pending: set<Cell>,
                   flowing': set<Cell>, resting': set<Cell>, pending': set<Cell>, maxY: int, added: set<Cell>)
    requires FallsIn(clay, flowing, resting, pending, maxY) && flowing + resting <= flowing' + resting'
    requires flowing' <= flowing + added && pending - added <= pending'
    requires forall c :: c in added && c !in pending' && c.1 < maxY ==> Floor(clay, flowing', resting', c)
    ensures FallsIn(clay, flowing', resting', pending', maxY)
  {
    forall c | c in flowing' && c !in pending' && c.1 < maxY
      ensures Floor(clay, flowing', resting', c)
    {
      if c !in added {
        assert Floor(clay, flowing, resting, c);
      }
    }
  }

  /** A pending square leaves `pending` once it has a floor (or is on the
      last row). */
  lemma Released(clay: set<Cell>, flowing: set<Cell>, resting: set<Cell>, pending: set<Cell>, maxY: int, c: Cell)
    requires FallsIn(clay, flowing, resting, pending + {c}, maxY)
    requires c.1 < maxY ==> Floor(clay, flowing, resting, c)
    ensures FallsIn(clay, flowing, resting, pending, maxY)
  {
    forall d | d in flowing && d !in pending && d.1 < maxY
      ensures Floor(clay, flowing, resting, d)
    {
      if d != c {
        assert d !in pending + {c};
      }
    }
  }

  /** The square is in the order. */
  predicate Lists(order: seq<Cell>, c: Cell) {
    c in order
  }

  /** The order lists exactly the squares of running and resting water. */
  ghost predicate Listed(order: seq<Cell>, flowing: set<Cell>, resting: set<Cell>) {
    forall c {:trigger Lists(order, c)} :: Lists(order, c) <==> c in flowing || c in resting
  }

  /** Once listed, a square is in the order exactly when it is wet. */
  lemma ListedAt(order: seq<Cell>, flowing: set<Cell>, resting: set<Cell>, c: Cell)
    requires Listed(order, flowing, resting)
    ensures c in order <==> c in flowing || c in resting
  {
    assert Lists(order, c) <==> c in flowing || c in resting;
  }

  /** A square that starts to run joins the order. */
  lemma ListedAdd(order: seq<Cell>, flowing: set<Cell>, resting: set<Cell>, c: Cell)
    requires Listed(order, flowing, resting)
    ensures Listed(order + [c], flowing + {c}, resting)
  {
    forall d
      ensures Lists(order + [c], d) <==> d in flowing + {c} || d in resting
    {
      assert Lists(order, d) <==> d in flowing || d in resting;
    }
  }

  /** Water that only changes kind keeps the order's listing. */
  lemma ListedSame(order: seq<Cell>, flowing: set<Cell>, resting: set<Cell>, flowing': set<Cell>, resting': set<Cell>)
    requires Listed(order, flowing, resting) && flowing + resting == flowing' + resting'
    ensures Listed(order, flowing', resting')
  {
    forall d
      ensures Lists(order, d) <==> d in flowing' || d in resting'
    {
      assert Lists(order, d) <==> d in flowing || d in resting;
      assert d in flowing + resting <==> d in flowing' + resting';
    }
  }

  /** Squares wetted in an order that starts at the spring, each fed by an
      earlier one, are all reached from the spring. */
  lemma {:induction false} OrderReached(order: seq<Cell>, wet: set<Cell>, i: nat)
    requires |order| > 0 && order[0] == Spring && FedInOrder(order)
    requires forall c :: c in order ==> c in wet
    requires i < |order|
    ensures Reached(order[i], wet)
    decreases i
  {
    if i == 0 {
      assert Path([Spring], wet);
    } else {
      assert FedAt(order, i);
      var j :| 0 <= j < i && Feeds(order[j], order[i]);
      OrderReached(order, wet, j);
      var p :| Path(p, wet) && p[|p| - 1] == order[j];
      var q := p + [order[i]];
      assert forall k :: 0 <= k < |p| ==> q[k] == p[k];
      assert Path(q, wet);
    }
  }

  // ---------------------------------------------------------------------
  // The grid

  class Grid {
    const clay: set<Cell>
    var flowing: set<Cell>
    var resting: set<Cell>
    const minY: int
    const maxY: int
    ghost const minX: int
    ghost const maxX: int
    /** The squares in the order they got wet (a square may repeat). */
    ghost var order: seq<Cell>

    /** Clay, running water and resting water never share a square, and
        every clay or resting square lies between minX and maxX. */
    ghost predicate Valid()
      reads this
    {
      && flowing !! clay && resting !! clay && flowing !! resting
      && (forall c :: c in clay ==> minX <= c.0 <= maxX)
      && (forall c :: c in resting ==> minX <= c.0 <= maxX)
    }

    /** `order` holds exactly the wet squares, starts at the spring, and
        each of its squares after the first is fed by an earlier one. */
    ghost predicate Traced()
      reads this
    {
      && Listed(order, flowing, resting)
      && (order != [] ==> order[0] == Spring)
      && FedInOrder(order)
    }

    /** Running water falls: every running square above maxY, other than
        those in `pending` whose fall is still being worked out, has clay
        or water below it. */
    ghost predicate Falls(pending: set<Cell>)
      reads this
    {
      FallsIn(clay, flowing, resting, pending, maxY)
    }

    /** Resting water is held: clay or resting water below it and on both
        sides of it. */
    ghost predicate Held()
      reads this
    {
      HeldIn(clay, resting)
    }

    /** `Grid::new`: no water yet, and minY and maxY the least and greatest
        y of the clay (the source panics on a scan without clay). */
    constructor (clay: set<Cell>)
      requires clay != {}
      ensures Valid() && Traced() && Held() && Falls({})
      ensures this.clay == clay && flowing == {} && resting == {} && order == []
      ensures forall c :: c in clay ==> minY <= c.1 <= maxY
      ensures (exists c :: c in clay && c.1 == minY) && (exists c :: c in clay && c.1 == maxY)
    {
      var lowY, highY, lowX, highX := Extent(clay);
      this.clay := clay;
      flowing := {};
      resting := {};
      minY, maxY := lowY, highY;
      minX, maxX := lowX, highX;
      order := [];
    }

    /** `is_blocked`: clay or resting water. */
    predicate Blocked(c: Cell)
      reads this`resting
    {
      c in clay || c in resting
    }

    /** Clay or water of either kind. */
    predicate Filled(c: Cell)
      reads this`flowing, this`resting
    {
      c in clay || c in flowing || c in resting
    }

    /** Walking left from a resting square over resting water ends at clay:
        resting water is walled in. */
    lemma WalledLeft(c: Cell)
      requires Valid() && Held() && c in resting
      ensures exists w :: w < c.0 && (w, c.1) in clay && forall i :: w < i <= c.0 ==> (i, c.1) in resting
      decreases c.0 - minX
    {
      assert HeldBy(clay, resting, c);
      var left := (c.0 - 1, c.1);
      if left !in clay {
        WalledLeft(left);
        var w :| w < left.0 && (w, c.1) in clay && forall i :: w < i <= left.0 ==> (i, c.1) in resting;
        assert forall i :: w < i <= c.0 ==> (i, c.1) in resting;
      }
    }

    /** Walking right from a resting square over resting water ends at clay. */
    lemma WalledRight(c: Cell)
      requires Valid() && Held() && c in resting
      ensures exists w :: w > c.0 && (w, c.1) in clay && forall i :: c.0 <= i < w ==> (i, c.1) in resting
      decreases maxX - c.0
    {
      assert HeldBy(clay, resting, c);
      var right := (c.0 + 1, c.1);
      if right !in clay {
        WalledRight(right);
        var w :| w > right.0 && (w, c.1) in clay && forall i :: right.0 <= i < w ==> (i, c.1) in resting;
        assert forall i :: c.0 <= i < w ==> (i, c.1) in resting;
      }
    }

    /** The left spread of `flow`: the water runs left over squares that
        stand on something blocked, until a wall or a drop. */
    method SpreadLeft(x: int, y: int) returns (l: int)
      requires Valid() && Traced() && minX <= x && (x, y) !in clay && (x, y) in order
      modifies this`flowing, this`order
      ensures Valid() && Traced()
      ensures minX <= l <= x
      ensures flowing == old(flowing) + Row(l, x - 1, y)
      ensures forall c :: c in Row(l, x - 1, y) ==> !Blocked(c) && Blocked((c.0, y + 1))
      ensures Blocked((l - 1, y)) || !Blocked((l - 1, y + 1))
    {
      l := x;
      while !Blocked((l - 1, y)) && Blocked((l - 1, y + 1))
        invariant resting == old(resting)
        invariant flowing !! clay && flowing !! resting
        invariant Traced() && (l, y) in order
        invariant minX <= l <= x
        invariant flowing == old(flowing) + Row(l, x - 1, y)
        invariant forall c :: c in Row(l, x - 1, y) ==> !Blocked(c) && Blocked((c.0, y + 1))
        decreases l - minX
      {
        Feed(order, (l, y), (l - 1, y));
        ListedAdd(order, flowing, resting, (l - 1, y));
        assert Row(l - 1, x - 1, y) == Row(l, x - 1, y) + {(l - 1, y)};
        l := l - 1;
        flowing := flowing + {(l, y)};
        order := order + [(l, y)];
      }
    }

    /** The right spread of `flow`, the mirror image of the left one. */
    method SpreadRight(x: int, y: int) returns (r: int)
      requires Valid() && Traced() && x <= maxX && (x, y) !in clay && (x, y) in order
      modifies this`flowing, this`order
      ensures Valid() && Traced()
      ensures x <= r <= maxX
      ensures flowing == old(flowing) + Row(x + 1, r, y)
      ensures forall c :: c in Row(x + 1, r, y) ==> !Blocked(c) && Blocked((c.0, y + 1))
      ensures Blocked((r + 1, y)) || !Blocked((r + 1, y + 1))
    {
      r := x;
      while !Blocked((r + 1, y)) && Blocked((r + 1, y + 1))
        invariant resting == old(resting)
        invariant flowing !! clay && flowing !! resting
        invariant Traced() && (r, y) in order
        invariant x <= r <= maxX
        invariant flowing == old(flowing) + Row(x + 1, r, y)
        invariant forall c :: c in Row(x + 1, r, y) ==> !Blocked(c) && Blocked((c.0, y + 1))
        decreases maxX - r
      {
        Feed(order, (r, y), (r + 1, y));
        ListedAdd(order, flowing, resting, (r + 1, y));
        assert Row(x + 1, r + 1, y) == Row(x + 1, r, y) + {(r + 1, y)};
        r := r + 1;
        flowing := flowing + {(r, y)};
        order := order + [(r, y)];
      }
    }

    /** The loop of the settling step: squares l..r of row y move from
        running to resting water. */
    method Rest(l: int, r: int, y: int)
      requires Valid() && minX <= l <= r + 1 && r <= maxX
      requires forall c :: c in Row(l, r, y) ==> c !in clay
      modifies this`flowing, this`resting
      ensures Valid()
      ensures flowing == old(flowing) - Row(l, r, y)
      ensures resting == old(resting) + Row(l, r, y)
    {
      var i := l;
      while i <= r
        invariant l <= i <= r + 1
        invariant Valid()
        invariant flowing == old(flowing) - Row(l, i - 1, y)
        invariant resting == old(resting) + Row(l, i - 1, y)
      {
        assert (i, y) in Row(l, r, y);
        flowing := flowing - {(i, y)};
        resting := resting + {(i, y)};
        i := i + 1;
      }
    }

    /** Water held by walls on both sides: squares l..r of row y, all wet
        and all standing on something blocked, stop running and come to
        rest, and the rest stays held. */
    method Settle(l: int, r: int, y: int, ghost pending: set<Cell>)
      requires Valid() && Traced() && Held() && Falls(pending) && minX <= l <= r + 1 && r <= maxX
      requires Row(l, r, y) <= flowing + resting
      requires forall c :: c in Row(l, r, y) ==> c !in clay && Blocked((c.0, y + 1))
      requires Blocked((l - 1, y)) && Blocked((r + 1, y))
      modifies this`flowing, this`resting
      ensures Valid() && Traced() && Held() && Falls(pending)
      ensures flowing == old(flowing) - Row(l, r, y)
      ensures resting == old(resting) + Row(l, r, y)
    {
      Rest(l, r, y);
      assert flowing + resting == old(flowing + resting);
      ListedSame(order, old(flowing), old(resting), flowing, resting);
      FallsStill(clay, old(flowing), old(resting), pending, flowing, resting, pending, maxY, {});
      forall c | c in Row(l, r, y)
        ensures HeldBy(clay, resting, c)
      {
        assert old(Blocked((c.0, y + 1)));
      }
      StillHeld(clay, old(resting), resting);
    }

    /** `flow` from (x, y). It does nothing below maxY, on a square already
        running or on a blocked one; otherwise the water takes the square
        (see Descend). Afterwards (x, y) is filled, water was only added,
        inside the box [lo, hi] x [y, maxY], every square that got wet was
        fed by one wet before it, resting water is held, and running water
        outside `pending` falls onto something. The ghost box bounds the
        squares the water can reach, which makes the recursion finite. */
    method Flow(x: int, y: int, ghost lo: int, ghost hi: int, ghost top: int, ghost pending: set<Cell>)
      requires Valid() && Traced() && Held() && Falls(pending)
      requires lo < minX && maxX < hi && lo <= x <= hi && top <= y
      requires if order == [] then (x, y) == Spring else exists a :: a in order && Feeds(a, (x, y))
      modifies this`flowing, this`resting, this`order
      ensures Valid() && Traced() && Held() && Falls(pending)
      ensures old(resting) <= resting
      ensures old(flowing + resting) <= flowing + resting
      ensures flowing + resting <= old(flowing + resting) + Box(lo, hi, y, maxY)
      ensures y > maxY || (x, y) in old(flowing) || old(Blocked((x, y))) ==>
        flowing == old(flowing) && resting == old(resting) && order == old(order)
      ensures y <= maxY ==> Filled((x, y))
      decreases Dry(Box(lo, hi, top, maxY), flowing + resting), 3
    {
      if y > maxY || (x, y) in flowing {
        return;
      }
      if Blocked((x, y)) {
        return;
      }
      Descend(x, y, lo, hi, top, pending);
    }

    /** The body of `flow` on a dry square (x, y) at or above maxY: the
        square starts to run and the water goes on down; once the square
        below is blocked, it spreads sideways. */
    method Descend(x: int, y: int, ghost lo: int, ghost hi: int, ghost top: int, ghost pending: set<Cell>)
      requires Valid() && Traced() && Held() && Falls(pending)
      requires lo < minX && maxX < hi && lo <= x <= hi && top <= y <= maxY
      requires (x, y) !in flowing && !Blocked((x, y))
      requires if order == [] then (x, y) == Spring else exists a :: a in order && Feeds(a, (x, y))
      modifies this`flowing, this`resting, this`order
      ensures Valid() && Traced() && Held() && Falls(pending)
      ensures old(resting) <= resting
      ensures old(flowing + resting) <= flowing + resting
      ensures flowing + resting <= old(flowing + resting) + Box(lo, hi, y, maxY)
      ensures Filled((x, y))
      decreases Dry(Box(lo, hi, top, maxY), flowing + resting), 2
    {
      ghost var box := Box(lo, hi, top, maxY);
      ghost var area := Box(lo, hi, y, maxY);
      ghost var entry := flowing + resting;
      Enter((x, y), pending);
      ghost var entered := flowing + resting;
      assert (x, y) in area && entered == entry + {(x, y)};
      Shrinks(box, entry, entered, (x, y));
      Fall(x, y, lo, hi, top, pending);
      BoxBelow(lo, hi, y, maxY);
      assert entered <= flowing + resting <= entry + area;
      if Blocked((x, y + 1)) {
        DryLess(box, entered, flowing + resting);
        ListedAt(order, flowing, resting, (x, y));
        ghost var fallen := flowing + resting;
        var l, r := Spread(x, y, lo, hi, top, pending);
        assert entered <= fallen <= flowing + resting <= fallen + area;
      }
    }

    /** The downward part of `flow` at a running square (x, y): unless the
        square below is blocked, the water goes on from there; afterwards
        the square below is filled, so (x, y) no longer waits for a floor. */
    method Fall(x: int, y: int, ghost lo: int, ghost hi: int, ghost top: int, ghost pending: set<Cell>)
      requires Valid() && Traced() && Held() && Falls(pending + {(x, y)})
      requires lo < minX && maxX < hi && lo <= x <= hi && top <= y <= maxY
      requires (x, y) in flowing && (x, y) in order
      modifies this`flowing, this`resting, this`order
      ensures Valid() && Traced() && Held() && Falls(pending)
      ensures old(resting) <= resting
      ensures old(flowing + resting) <= flowing + resting
      ensures flowing + resting <= old(flowing + resting) + Box(lo, hi, y + 1, maxY)
      decreases Dry(Box(lo, hi, top, maxY), flowing + resting), 4
    {
      if !Blocked((x, y + 1)) {
        assert Feeds((x, y), (x, y + 1));
        Flow(x, y + 1, lo, hi, top, pending + {(x, y)});
      }
      assert y < maxY ==> Floor(clay, flowing, resting, (x, y));
      Released(clay, flowing, resting, pending, maxY, (x, y));
    }

    /** The first step of `flow` on a dry square: it starts to run, and is
        recorded as fed by a wet neighbour (or as the spring). */
    method Enter(c: Cell, ghost pending: set<Cell>)
      requires Valid() && Traced() && Held() && Falls(pending) && c !in clay && c !in flowing && c !in resting
      requires if order == [] then c == Spring else exists a :: a in order && Feeds(a, c)
      modifies this`flowing, this`order
      ensures Valid() && Traced() && Held() && Falls(pending + {c})
      ensures flowing == old(flowing) + {c} && order == old(order) + [c]
    {
      if order != [] {
        var a :| a in order && Feeds(a, c);
        Feed(order, a, c);
      }
      ListedAdd(order, flowing, resting, c);
      flowing := flowing + {c};
      order := order + [c];
      FallsStill(clay, old(flowing), resting, pending, flowing, resting, pending + {c}, maxY, {c});
    }

    /** The sideways part of `flow` at a running square (x, y) that stands
        on something blocked: the water spreads left and right to l and r,
        over dry squares that stand on something blocked. Held by walls on
        both sides the row comes to rest; otherwise the water spills over
        each open edge that has nothing below it. */
    method Spread(x: int, y: int, ghost lo: int, ghost hi: int, ghost top: int, ghost pending: set<Cell>)
      returns (l: int, r: int)
      requires Valid() && Traced() && Held() && Falls(pending)
      requires lo < minX && maxX < hi && top <= y <= maxY
      requires minX <= x <= maxX && (x, y) !in clay && (x, y) in order && Blocked((x, y + 1))
      modifies this`flowing, this`resting, this`order
      ensures Valid() && Traced() && Held() && Falls(pending)
      ensures old(resting) <= resting
      ensures old(flowing + resting) <= flowing + resting
      ensures flowing + resting <= old(flowing + resting) + Box(lo, hi, y, maxY)
      ensures l <= x <= r
      ensures forall c :: c in Row(l, r, y) ==> old(Blocked((c.0, y + 1))) && (c == (x, y) || !old(Blocked(c)))
      ensures old(Blocked((l - 1, y))) || !old(Blocked((l - 1, y + 1)))
      ensures old(Blocked((r + 1, y))) || !old(Blocked((r + 1, y + 1)))
      ensures old(Blocked((l - 1, y))) && old(Blocked((r + 1, y))) ==>
        resting == old(resting) + Row(l, r, y) && flowing == old(flowing) - Row(l, r, y)
      ensures !(old(Blocked((l - 1, y))) && old(Blocked((r + 1, y)))) ==>
        && Row(l, r, y) <= flowing + resting
        && (old(Blocked((l - 1, y))) || Filled((l - 1, y)))
        && (old(Blocked((r + 1, y))) || Filled((r + 1, y)) || Blocked((r + 1, y + 1)))
      decreases Dry(Box(lo, hi, top, maxY), flowing + resting) + 1, 0
    {
      ghost var box := Box(lo, hi, top, maxY);
      l, r := Reach(x, y, pending);
      forall c | c in Row(l, r, y)
        ensures old(Blocked((c.0, y + 1))) && (c == (x, y) || !old(Blocked(c)))
      {
        assert Blocked((c.0, y + 1)) && (c == (x, y) || !Blocked(c));
      }
      RowInBox(l, r, y, lo, hi, y, maxY);
      ghost var area := Box(lo, hi, y, maxY);
      ghost var mid := flowing + resting;
      assert old(flowing + resting) <= mid <= old(flowing + resting) + area;
      var leftWall := Blocked((l - 1, y));
      var rightWall := Blocked((r + 1, y));
      if leftWall && rightWall {
        SameOutside(old(flowing), flowing, Row(l, r, y));
        Settle(l, r, y, pending);
      } else {
        DryLess(box, old(flowing + resting), flowing + resting);
        ListedAt(order, flowing, resting, (l, y));
        ListedAt(order, flowing, resting, (r, y));
        Spill(l, r, y, leftWall, rightWall, lo, hi, top, pending);
        assert Row(l, r, y) <= mid <= flowing + resting <= mid + area;
      }
    }

    /** The two sideways walks of `flow` from (x, y): squares l..r of row
        y are wet afterwards, each of them except (x, y) dry before and all
        of them standing on something blocked, and each walk stopped at a
        wall or a drop. */
    method Reach(x: int, y: int, ghost pending: set<Cell>) returns (l: int, r: int)
      requires Valid() && Traced() && Held() && Falls(pending)
      requires minX <= x <= maxX && (x, y) !in clay && (x, y) in order && Blocked((x, y + 1))
      modifies this`flowing, this`order
      ensures Valid() && Traced() && Held() && Falls(pending)
      ensures minX <= l <= x <= r <= maxX
      ensures flowing == old(flowing) + Row(l, x - 1, y) + Row(x + 1, r, y)
      ensures old(flowing) <= flowing <= old(flowing) + Row(l, r, y)
      ensures Row(l, r, y) <= flowing + resting
      ensures forall c :: c in Row(l, r, y) ==> Blocked((c.0, y + 1)) && (c == (x, y) || !Blocked(c))
      ensures Blocked((l - 1, y)) || !Blocked((l - 1, y + 1))
      ensures Blocked((r + 1, y)) || !Blocked((r + 1, y + 1))
    {
      ListedAt(order, flowing, resting, (x, y));
      l := SpreadLeft(x, y);
      ListedAt(order, flowing, resting, (x, y));
      r := SpreadRight(x, y);
      assert Row(l, r, y) == Row(l, x - 1, y) + {(x, y)} + Row(x + 1, r, y);
      ghost var added := Row(l, x - 1, y) + Row(x + 1, r, y);
      forall c | c in added
        ensures Floor(clay, flowing, resting, c)
      {
        assert Blocked((c.0, y + 1));
      }
      FallsStill(clay, old(flowing), old(resting), pending, flowing, resting, pending, maxY, added);
      forall c | c in Row(l, r, y)
        ensures Blocked((c.0, y + 1)) && (c == (x, y) || !Blocked(c))
      {
        if c.0 < x {
          assert c in Row(l, x - 1, y);
        } else if c.0 > x {
          assert c in Row(x + 1, r, y);
        } else {
          assert old(Blocked((x, y + 1)));
        }
      }
    }

    /** The end of `flow` when the spread row is not held on both sides:
        the water goes on from each open edge that has nothing below it,
        so an open left edge gets wet, and an open right edge gets wet
        unless the left stream has blocked the square below it by then. */
    method Spill(l: int, r: int, y: int, leftWall: bool, rightWall: bool, ghost lo: int, ghost hi: int, ghost top: int, ghost pending: set<Cell>)
      requires Valid() && Traced() && Held() && Falls(pending)
      requires lo < minX && maxX < hi && top <= y <= maxY
      requires minX <= l <= r <= maxX && (l, y) in order && (r, y) in order
      modifies this`flowing, this`resting, this`order
      ensures Valid() && Traced() && Held() && Falls(pending)
      ensures old(resting) <= resting
      ensures old(flowing + resting) <= flowing + resting
      ensures flowing + resting <= old(flowing + resting) + Box(lo, hi, y, maxY)
      ensures !leftWall && !old(Blocked((l - 1, y + 1))) ==> Filled((l - 1, y))
      ensures !rightWall ==> Filled((r + 1, y)) || Blocked((r + 1, y + 1))
      decreases Dry(Box(lo, hi, top, maxY), flowing + resting), 4
    {
      ghost var box := Box(lo, hi, top, maxY);
      ghost var area := Box(lo, hi, y, maxY);
      ghost var entry := flowing + resting;
      if !leftWall && !Blocked((l - 1, y + 1)) {
        DryLess(box, entry, flowing + resting);
        Flow(l - 1, y, lo, hi, top, pending);
      }
      assert flowing + resting <= entry + area;
      if !rightWall && !Blocked((r + 1, y + 1)) {
        DryLess(box, entry, flowing + resting);
        ListedAt(old(order), old(flowing), old(resting), (r, y));
        ListedAt(order, flowing, resting, (r, y));
        Flow(r + 1, y, lo, hi, top, pending);
      }
    }

    /** The squares of s between minY and maxY. */
    function InRows(s: set<Cell>): (t: set<Cell>)
      ensures t <= s
      ensures forall c :: c in t <==> c in s && minY <= c.1 <= maxY
    {
      set c | c in s && minY <= c.1 <= maxY
    }

    /** `count_water`: running and resting squares within the clay's rows. */
    function CountWater(): nat
      reads this
    {
      |InRows(flowing)| + |InRows(resting)|
    }

    /** `count_resting_water`: resting squares within the clay's rows. */
    function CountResting(): nat
      reads this
    {
      |InRows(resting)|
    }

    /** Running and resting water never overlap, so the chained count is
        the number of wet squares in the rows, and the resting ones are
        among them. */
    lemma WaterCount()
      requires Valid()
      ensures CountWater() == |InRows(flowing + resting)|
      ensures CountResting() <= CountWater()
    {
      assert InRows(flowing) * InRows(resting) == {};
      assert InRows(flowing + resting) == InRows(flowing) + InRows(resting);
    }

    /** The water the spring leaves: running water falls onto something
        down to the last row, resting water is held by something below it
        and on both sides (so walled in by clay, see WalledLeft and
        WalledRight), and every wet square is reached from the spring. */
    ghost predicate Poured()
      reads this
    {
      && Falls({}) && Held()
      && forall c :: c in flowing + resting ==> Reached(c, flowing + resting)
    }

    /** Once traced from the spring, every wet square is reached. */
    lemma TracedReached()
      requires Traced()
      ensures forall c :: c in flowing + resting ==> Reached(c, flowing + resting)
    {
      forall c | c in order
        ensures c in flowing + resting
      {
        ListedAt(order, flowing, resting, c);
      }
      forall c | c in flowing + resting
        ensures Reached(c, flowing + resting)
      {
        ListedAt(order, flowing, resting, c);
        var i :| 0 <= i < |order| && order[i] == c;
        OrderReached(order, flowing + resting, i);
      }
    }
  }

  /** Appending b, fed by a square a already in the order, keeps every
      square fed by an earlier one. */
  lemma Feed(order: seq<Cell>, a: Cell, b: Cell)
    requires FedInOrder(order) && a in order && Feeds(a, b)
    ensures FedInOrder(order + [b])
  {
    var o := order + [b];
    var j :| 0 <= j < |order| && order[j] == a;
    forall i | 0 < i < |o|
      ensures FedAt(o, i)
    {
      if i < |order| {
        assert FedAt(order, i);
        var k :| 0 <= k < i && Feeds(order[k], order[i]);
        assert o[k] == order[k] && o[i] == order[i];
      } else {
        assert o[j] == a && o[i] == b;
      }
    }
  }

  // ---------------------------------------------------------------------
  // The two parts

  /** Run the water from the spring over the clay of the scan; None when
      the scan does not parse or holds no clay (the source panics). The
      water stays between the spring's row and maxY, and the grid is left
      as Poured says. */
  method Pour(lines: seq<string>) returns (r: Option<Grid>)
    ensures r.Some? <==> ClayOf(lines).Some? && ClayOf(lines).value != {}
    ensures r.Some? ==> r.value.Valid() && r.value.clay == ClayOf(lines).value && r.value.Poured()
    ensures r.Some? ==> forall c :: c in r.value.flowing + r.value.resting ==> Spring.1 <= c.1 <= r.value.maxY
    ensures r.Some? && Spring.1 <= r.value.maxY ==> r.value.Filled(Spring)
  {
    var clay := ParseInput(lines);
    if clay.None? || clay.value == {} {
      return None;
    }
    var grid := new Grid(clay.value);
    ghost var lo := if grid.minX - 1 < Spring.0 then grid.minX - 1 else Spring.0 - 1;
    ghost var hi := if grid.maxX + 1 > Spring.0 then grid.maxX + 1 else Spring.0 + 1;
    grid.Flow(Spring.0, Spring.1, lo, hi, Spring.1, {});
    grid.TracedReached();
    return Some(grid);
  }

  /** `part1`: squares the water reaches, running or resting. */
  method Part1(lines: seq<string>) returns (r: Option<nat>, grid: Option<Grid>)
    ensures r.Some? <==> ClayOf(lines).Some? && ClayOf(lines).value != {}
    ensures r.Some? ==> grid.Some? && grid.value.Valid() && grid.value.clay == ClayOf(lines).value
                        && grid.value.Poured()
                        && r.value == |grid.value.InRows(grid.value.flowing + grid.value.resting)|
  {
    grid := Pour(lines);
    if grid.None? {
      return None, grid;
    }
    grid.value.WaterCount();
    return Some(grid.value.CountWater()), grid;
  }

  /** `part2`: squares of resting water. */
  method Part2(lines: seq<string>) returns (r: Option<nat>, grid: Option<Grid>)
    ensures r.Some? <==> ClayOf(lines).Some? && ClayOf(lines).value != {}
    ensures r.Some? ==> grid.Some? && grid.value.Valid() && grid.value.clay == ClayOf(lines).value
                        && grid.value.Poured()
                        && r.value == |grid.value.InRows(grid.value.resting)|
                        && r.value <= |grid.value.InRows(grid.value.flowing + grid.value.resting)|
  {
    grid := Pour(lines);
    if grid.None? {
      return None, grid;
    }
    grid.value.WaterCount();
    return Some(grid.value.CountResting()), grid;
  }
}
