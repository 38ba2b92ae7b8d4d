/** The claim that overlaps no other (3/problem2.py): the fabric of
    3/problem1.py that also keeps the list of claims added, a read-only check
    that every cell of a claim holds exactly 1, and the claims passing it. */
module Day03Check {

  import opened Day03Fabric

  /** Every cell of the claim's rectangle holds exactly 1. */
  predicate Intact(g: seq<seq<int>>, c: Claim)
    requires IsGrid(g) && Fits(c)
  {
    forall r, k :: 0 <= r < Height && 0 <= k < Width && Covers(c, r, k) ==> g[r][k] == 1
  }

  /** The claims of `cs` that are intact in `g`, in order. */
  function Passing(g: seq<seq<int>>, cs: seq<Claim>): (ps: seq<Claim>)
    requires IsGrid(g) && forall i :: 0 <= i < |cs| ==> Fits(cs[i])
    ensures |ps| <= |cs|
  {
    if cs == [] then []
    else Passing(g, cs[..|cs| - 1]) + (if Intact(g, cs[|cs| - 1]) then [cs[|cs| - 1]] else [])
  }

  /** The two claims share a cell. */
  ghost predicate Overlap(a: Claim, b: Claim) {
    exists r, k :: Covers(a, r, k) && Covers(b, r, k)
  }

  /** The fabric of 3/problem2.py: the counters and the list `claims`.
      The grid code is the same as 3/problem1.py's and is reused from there. */
  class ClaimFabric {
    var grid: Fabric
    var claims: seq<Claim>

    ghost predicate Valid()
      reads this, grid
    {
      && grid.Valid()
      && (forall i :: 0 <= i < |claims| ==> Fits(claims[i]))
      && forall r, k :: 0 <= r < Height && 0 <= k < Width ==> grid.fabric[r][k] == CoverCount(claims, r, k)
    }

    /** `Fabric()`: zero counters and no claims. */
    constructor()
      ensures Valid() && claims == [] && fresh(grid)
    {
      grid := new Fabric();
      claims := [];
    }

    /** `add_claim`: append the claim, then count its rectangle once more. */
    method AddClaim(claim: Claim)
      requires Valid() && Fits(claim)
      modifies this, grid
      ensures Valid() && grid == old(grid)
      ensures claims == old(claims) + [claim]
    {
      claims := claims + [claim];
      assert claims[..|claims| - 1] == old(claims);
      grid.AddClaim(claim);
    }

    /** `check_claim`: read-only, true iff every cell of the claim holds 1;
        the first other value ends the loops. */
    method CheckClaim(claim: Claim) returns (ok: bool)
      requires Valid() && Fits(claim)
      ensures ok <==> Intact(grid.fabric, claim)
    {
      var dy := 0;
      while dy < claim.h
        invariant 0 <= dy <= claim.h
        invariant forall r, k :: 0 <= r < Height && 0 <= k < Width && Visited(claim, dy, 0, r, k) ==> grid.fabric[r][k] == 1
      {
        var dx := 0;
        while dx < claim.w
          invariant 0 <= dx <= claim.w
          invariant forall r, k :: 0 <= r < Height && 0 <= k < Width && Visited(claim, dy, dx, r, k) ==> grid.fabric[r][k] == 1
        {
          if !(grid.fabric[claim.y + dy][claim.x + dx] == 1) {
            return false;
          }
          dx := dx + 1;
        }
        dy := dy + 1;
      }
      return true;
    }

    /** `check_claims`: the claims passing `check_claim`, in insertion order. */
    method CheckClaims() returns (printed: seq<Claim>)
      requires Valid()
      ensures printed == Passing(grid.fabric, claims)
    {
      printed := [];
      var i := 0;
      while i < |claims|
        invariant 0 <= i <= |claims|
        invariant printed == Passing(grid.fabric, claims[..i])
      {
        assert claims[..i + 1][..i] == claims[..i];
        var ok := CheckClaim(claims[i]);
        if ok {
          printed := printed + [claims[i]];
        }
        i := i + 1;
      }
      assert claims[..i] == claims;
    }
  }

  /** A cell that claim `i` covers is covered once iff no other claim covers it. */
  lemma {:induction false} CoveredOnce(claims: seq<Claim>, i: nat, r: int, k: int)
    requires i < |claims| && Covers(claims[i], r, k)
    ensures CoverCount(claims, r, k) == 1 <==> forall j :: 0 <= j < |claims| && j != i ==> !Covers(claims[j], r, k)
  {
    var init := claims[..|claims| - 1];
    if i == |claims| - 1 {
      NotCovered(init, r, k);
    } else {
      CoveredOnce(init, i, r, k);
      NotCovered(init, r, k);
      assert init[i] == claims[i];
      assert forall j :: 0 <= j < |init| ==> init[j] == claims[j];
    }
  }

  lemma {:induction false} NotCovered(claims: seq<Claim>, r: int, k: int)
    ensures CoverCount(claims, r, k) == 0 <==> forall j :: 0 <= j < |claims| ==> !Covers(claims[j], r, k)
  {
    if claims != [] {
      NotCovered(claims[..|claims| - 1], r, k);
    }
  }

  /** On the fabric built from all the claims, a claim passes `check_claim`
      exactly when it overlaps no other claim. */
  lemma IntactIffNoOverlap(claims: seq<Claim>, i: nat)
    requires i < |claims| && forall j :: 0 <= j < |claims| ==> Fits(claims[j])
    ensures Intact(CoverGrid(claims), claims[i]) <==> forall j :: 0 <= j < |claims| && j != i ==> !Overlap(claims[i], claims[j])
  {
    var c := claims[i];
    var g := CoverGrid(claims);
    if Intact(g, c) {
      forall j, r, k | 0 <= j < |claims| && j != i && Covers(c, r, k)
        ensures !Covers(claims[j], r, k)
      {
        CoveredOnce(claims, i, r, k);
      }
    }
    if forall j :: 0 <= j < |claims| && j != i ==> !Overlap(c, claims[j]) {
      forall r, k | 0 <= r < Height && 0 <= k < Width && Covers(c, r, k)
        ensures g[r][k] == 1
      {
        CoveredOnce(claims, i, r, k);
      }
    }
  }

  /** The script: add every claim, then list those that pass. These are
      exactly the claims that overlap no other one. */
  method NonOverlapping(cs: seq<Claim>) returns (printed: seq<Claim>)
    requires forall i :: 0 <= i < |cs| ==> Fits(cs[i])
    ensures printed == Passing(CoverGrid(cs), cs)
  {
    var f := new ClaimFabric();
    var i := 0;
    while i < |cs|
      invariant 0 <= i <= |cs| && f.Valid() && f.claims == cs[..i] && fresh(f.grid)
    {
      assert cs[..i + 1] == cs[..i] + [cs[i]];
      f.AddClaim(cs[i]);
      i := i + 1;
    }
    assert cs[..i] == cs;
    GridsEqual(f.grid.fabric, CoverGrid(cs));
    printed := f.CheckClaims();
  }
}
