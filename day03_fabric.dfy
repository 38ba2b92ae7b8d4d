/** Overlapping fabric claims (3/problem1.py): a 1000 by 1000 grid of
    counters, each claim adding one to every cell of its rectangle, and the
    number of cells claimed two or more times. */
module Day03Fabric {

  const Width: nat := 1000
  const Height: nat := 1000

  /** A parsed claim "#identity @ x,y: wxh". */
  datatype Claim = Claim(identity: int, x: nat, y: nat, w: nat, h: nat)

  /** Cell (row, col) lies in the claim's rectangle. */
  predicate Covers(c: Claim, row: int, col: int) {
    c.y <= row < c.y + c.h && c.x <= col < c.x + c.w
  }

  /** The rectangle lies inside the fabric (otherwise the script's indexing fails). */
  predicate Fits(c: Claim) {
    c.x + c.w <= Width && c.y + c.h <= Height
  }

  predicate IsGrid(g: seq<seq<int>>) {
    |g| == Height && forall r :: 0 <= r < |g| ==> |g[r]| == Width
  }

  /** How many of `claims` cover cell (row, col). */
  function CoverCount(claims: seq<Claim>, row: int, col: int): (n: nat)
    ensures n <= |claims|
  {
    if claims == [] then 0
    else CoverCount(claims[..|claims| - 1], row, col) + (if Covers(claims[|claims| - 1], row, col) then 1 else 0)
  }

  /** The number of cells of `row` holding at least `k`. */
  function RowAtLeast(row: seq<int>, k: int): (n: nat)
    ensures n <= |row|
  {
    if row == [] then 0
    else RowAtLeast(row[..|row| - 1], k) + (if row[|row| - 1] >= k then 1 else 0)
  }

  /** The number of cells of `g` holding at least `k`. */
  function GridAtLeast(g: seq<seq<int>>, k: int): nat {
    if g == [] then 0 else GridAtLeast(g[..|g| - 1], k) + RowAtLeast(g[|g| - 1], k)
  }

  function RowSum(row: seq<int>): int {
    if row == [] then 0 else RowSum(row[..|row| - 1]) + row[|row| - 1]
  }

  /** The sum of all counters. */
  function GridSum(g: seq<seq<int>>): int {
    if g == [] then 0 else GridSum(g[..|g| - 1]) + RowSum(g[|g| - 1])
  }

  /** Cells of the claim's rectangle that the `dy`/`dx` loops of `add_claim`
      have already visited: the first `dy` rows, then `dx` cells of row `dy`. */
  predicate Visited(c: Claim, dy: nat, dx: nat, row: int, col: int) {
    c.x <= col < c.x + c.w && (c.y <= row < c.y + dy || (row == c.y + dy && col < c.x + dx))
  }

  class Fabric {
    var fabric: seq<seq<int>>

    ghost predicate Valid()
      reads this
    {
      IsGrid(fabric)
    }

    /** `Fabric()`: `height` rows of `width` zeros. */
    constructor()
      ensures Valid()
      ensures forall r, c :: 0 <= r < Height && 0 <= c < Width ==> fabric[r][c] == 0
    {
      var rows: seq<seq<int>> := [];
      var y := 0;
      while y < Height
        invariant 0 <= y <= Height && |rows| == y
        invariant forall r :: 0 <= r < y ==> rows[r] == seq(Width, _ => 0)
      {
        rows := rows + [seq(Width, _ => 0)];
        y := y + 1;
      }
      fabric := rows;
    }

    /** `add_claim`: one more on each cell of the rectangle, nothing else changes. */
    method AddClaim(claim: Claim)
      requires Valid() && Fits(claim)
      modifies this
      ensures Valid()
      ensures forall r, c :: 0 <= r < Height && 0 <= c < Width ==>
        fabric[r][c] == old(fabric[r][c]) + (if Covers(claim, r, c) then 1 else 0)
    {
      var dy := 0;
      while dy < claim.h
        invariant 0 <= dy <= claim.h && Valid()
        invariant forall r, c :: 0 <= r < Height && 0 <= c < Width ==>
          fabric[r][c] == old(fabric[r][c]) + (if Visited(claim, dy, 0, r, c) then 1 else 0)
      {
        var dx := 0;
        while dx < claim.w
          invariant 0 <= dx <= claim.w && Valid()
          invariant forall r, c :: 0 <= r < Height && 0 <= c < Width ==>
            fabric[r][c] == old(fabric[r][c]) + (if Visited(claim, dy, dx, r, c) then 1 else 0)
        {
          var row, col := claim.y + dy, claim.x + dx;
          fabric := fabric[row := fabric[row][col := fabric[row][col] + 1]];
          dx := dx + 1;
        }
        dy := dy + 1;
      }
    }

    /** `count_two_or_more`: the cells claimed at least twice. */
    method CountTwoOrMore() returns (count: int)
      requires Valid()
      ensures count == GridAtLeast(fabric, 2)
    {
      count := 0;
      var y := 0;
      while y < Height
        invariant 0 <= y <= Height
        invariant count == GridAtLeast(fabric[..y], 2)
      {
        var x := 0;
        var inRow := 0;
        while x < Width
          invariant 0 <= x <= Width
          invariant inRow == RowAtLeast(fabric[y][..x], 2)
        {
          assert fabric[y][..x + 1][..x] == fabric[y][..x];
          if fabric[y][x] >= 2 {
            inRow := inRow + 1;
          }
          x := x + 1;
        }
        assert fabric[y][..x] == fabric[y];
        assert fabric[..y + 1][..y] == fabric[..y];
        count := count + inRow;
        y := y + 1;
      }
      assert fabric[..y] == fabric;
    }
  }

  /** How many of the indices `lo .. lo + len - 1` lie below `k`. */
  function Clip(lo: nat, len: nat, k: nat): (n: nat)
    ensures n <= len
  {
    if k <= lo then 0 else if k >= lo + len then len else k - lo
  }

  /** A row in which the cells `x .. x + w - 1` went up by one (when `covered`). */
  lemma {:induction false} RowSumAfterClaim(r: seq<int>, r': seq<int>, c: Claim, covered: bool, j: nat)
    requires |r| == |r'| == Width && j <= Width && Fits(c)
    requires forall k :: 0 <= k < Width ==> r'[k] == r[k] + (if covered && c.x <= k < c.x + c.w then 1 else 0)
    ensures RowSum(r'[..j]) == RowSum(r[..j]) + (if covered then Clip(c.x, c.w, j) else 0)
  {
    if j > 0 {
      RowSumAfterClaim(r, r', c, covered, j - 1);
      assert r[..j][..j - 1] == r[..j - 1] && r'[..j][..j - 1] == r'[..j - 1];
    }
  }

  /** `g'` is `g` after `add_claim(c)`. */
  predicate ClaimAdded(g: seq<seq<int>>, g': seq<seq<int>>, c: Claim) {
    && IsGrid(g) && IsGrid(g')
    && forall r, k :: 0 <= r < Height && 0 <= k < Width ==> g'[r][k] == g[r][k] + (if Covers(c, r, k) then 1 else 0)
  }

  /** `add_claim` raises the sum of all counters by the claim's area. */
  lemma GridSumAfterClaim(g: seq<seq<int>>, g': seq<seq<int>>, c: Claim)
    requires ClaimAdded(g, g', c) && Fits(c)
    ensures GridSum(g') == GridSum(g) + c.w * c.h
  {
    GridSumPrefix(g, g', c, Height);
    AreaBelowIsProduct(c, Height);
    assert g[..Height] == g && g'[..Height] == g';
  }

  /** The cells of the claim's rectangle that lie in rows below `n`. */
  function AreaBelow(c: Claim, n: nat): nat {
    if n == 0 then 0 else AreaBelow(c, n - 1) + (if c.y <= n - 1 < c.y + c.h then c.w else 0)
  }

  lemma {:induction false} AreaBelowIsProduct(c: Claim, n: nat)
    ensures AreaBelow(c, n) == Clip(c.y, c.h, n) * c.w
  {
    if n > 0 {
      AreaBelowIsProduct(c, n - 1);
      if c.y <= n - 1 < c.y + c.h {
        assert Clip(c.y, c.h, n) == Clip(c.y, c.h, n - 1) + 1;
      }
    }
  }

  lemma RowAfterClaim(g: seq<seq<int>>, g': seq<seq<int>>, c: Claim, r: nat)
    requires ClaimAdded(g, g', c) && Fits(c) && r < Height
    ensures RowSum(g'[r]) == RowSum(g[r]) + (if c.y <= r < c.y + c.h then c.w else 0)
  {
    RowSumAfterClaim(g[r], g'[r], c, c.y <= r < c.y + c.h, Width);
    assert g[r][..Width] == g[r] && g'[r][..Width] == g'[r];
  }

  lemma {:induction false} GridSumPrefix(g: seq<seq<int>>, g': seq<seq<int>>, c: Claim, n: nat)
    requires ClaimAdded(g, g', c) && Fits(c) && n <= Height
    ensures GridSum(g'[..n]) == GridSum(g[..n]) + AreaBelow(c, n)
  {
    if n > 0 {
      GridSumPrefix(g, g', c, n - 1);
      assert g[..n][..n - 1] == g[..n - 1] && g'[..n][..n - 1] == g'[..n - 1];
      RowAfterClaim(g, g', c, n - 1);
    }
  }

  /** The grid each cell of which holds its number of covering claims. */
  function CoverGrid(claims: seq<Claim>): (g: seq<seq<int>>)
    ensures IsGrid(g)
  {
    seq(Height, r => seq(Width, c => CoverCount(claims, r, c)))
  }

  /** Two grids with the same cells are equal. */
  lemma GridsEqual(g: seq<seq<int>>, g': seq<seq<int>>)
    requires IsGrid(g) && IsGrid(g')
    requires forall r, c :: 0 <= r < Height && 0 <= c < Width ==> g[r][c] == g'[r][c]
    ensures g == g'
  {
    forall r | 0 <= r < Height
      ensures g[r] == g'[r]
    {
    }
  }

  /** The script: add every claim to a fresh fabric, then count. The count is
      the number of cells that two or more claims cover. */
  method OverlapCount(claims: seq<Claim>) returns (count: int)
    requires forall i :: 0 <= i < |claims| ==> Fits(claims[i])
    ensures count == GridAtLeast(CoverGrid(claims), 2)
  {
    var f := new Fabric();
    var i := 0;
    while i < |claims|
      invariant 0 <= i <= |claims| && f.Valid()
      invariant forall r, c :: 0 <= r < Height && 0 <= c < Width ==> f.fabric[r][c] == CoverCount(claims[..i], r, c)
    {
      assert claims[..i + 1][..i] == claims[..i];
      f.AddClaim(claims[i]);
      i := i + 1;
    }
    assert claims[..i] == claims;
    GridsEqual(f.fabric, CoverGrid(claims));
    count := f.CountTwoOrMore();
  }
}
