/** Immune System Simulator 20XX (rust/src/day24.rs): two armies of groups
    fight in rounds of target selection and attack until one army is gone
    or a round kills nothing. */
module Day24 {

  import opened Wrappers

  datatype Army = ImmuneSystem | Infection

  /** `Group`: what a group is made of; `id` is its place in the input. */
  datatype Group = Group(
    id: nat,
    army: Army,
    units: int,
    hp: int,
    attackDamage: int,
    attackType: string,
    initiative: int,
    weaknesses: seq<string>,
    immunities: seq<string>)

  /** `effective_power`: units times attack damage. */
  function EffectivePower(g: Group): int {
    g.units * g.attackDamage
  }

  /** `damage_to`: nothing to an immune target (looked at first), double to
      a weak one, the effective power otherwise. */
  function DamageTo(attacker: Group, target: Group): int {
    if attacker.attackType in target.immunities then 0
    else if attacker.attackType in target.weaknesses then EffectivePower(attacker) * 2
    else EffectivePower(attacker)
  }

  /** The three outcomes of `damage_to`, with immunity taking precedence
      over weakness: for a group of non-negative effective power the damage
      is 0, the power or twice it, and 0 only for an immune target or a
      powerless attacker. */
  lemma DamageCases(attacker: Group, target: Group)
    requires EffectivePower(attacker) >= 0
    ensures var d, p := DamageTo(attacker, target), EffectivePower(attacker);
            && 0 <= d <= 2 * p
            && (d == 0 <==> attacker.attackType in target.immunities || p == 0)
            && (attacker.attackType in target.immunities ==> d == 0)
            && (attacker.attackType !in target.immunities && attacker.attackType in target.weaknesses ==> d == 2 * p)
            && (attacker.attackType !in target.immunities && attacker.attackType !in target.weaknesses ==> d == p)
  {
  }

  /** Groups the combat loop can run on: positive hit points and no
      negative units or damage. */
  predicate WellFormed(groups: seq<Group>) {
    forall k :: 0 <= k < |groups| ==>
      groups[k].hp > 0 && groups[k].units >= 0 && groups[k].attackDamage >= 0
  }

  lemma PowerNonNegative(g: Group)
    requires g.units >= 0 && g.attackDamage >= 0
    ensures EffectivePower(g) >= 0
  {
  }

  /** The sum of the units of all groups. */
  function Total(groups: seq<Group>): int {
    if groups == [] then 0 else Total(groups[..|groups| - 1]) + groups[|groups| - 1].units
  }

  // ---------------------------------------------------------------------
  // The boost

  /** The groups with boost added to the attack damage of every
      immune-system group. */
  function Boosted(groups: seq<Group>, boost: int): (r: seq<Group>)
    ensures |r| == |groups|
  {
    seq(|groups|, k requires 0 <= k < |groups| =>
      if groups[k].army == ImmuneSystem then groups[k].(attackDamage := groups[k].attackDamage + boost)
      else groups[k])
  }

  /** The boost changes only the damage of immune-system groups, by exactly
      the boost, and keeps the groups well formed. */
  lemma BoostOnlyImmune(groups: seq<Group>, boost: int, k: nat)
    requires k < |groups|
    ensures Boosted(groups, boost)[k].(attackDamage := groups[k].attackDamage) == groups[k]
    ensures Boosted(groups, boost)[k].attackDamage
            == groups[k].attackDamage + (if groups[k].army == ImmuneSystem then boost else 0)
  {
  }

  lemma BoostWellFormed(groups: seq<Group>, boost: int)
    requires WellFormed(groups) && boost >= 0
    ensures WellFormed(Boosted(groups, boost))
  {
  }

  /** The loop of `simulate_combat` that applies the boost to the vector. */
  method ApplyBoost(groups: seq<Group>, boost: int) returns (r: seq<Group>)
    ensures r == Boosted(groups, boost)
  {
    r := groups;
    for i := 0 to |r|
      invariant |r| == |groups|
      invariant forall k :: 0 <= k < i ==> r[k] == Boosted(groups, boost)[k]
      invariant forall k :: i <= k < |r| ==> r[k] == groups[k]
    {
      if r[i].army == ImmuneSystem {
        r := r[i := r[i].(attackDamage := r[i].attackDamage + boost)];
      }
    }
  }

  // ---------------------------------------------------------------------
  // retain and the end of combat

  /** `retain(|g| g.units > 0)`: the live groups, in order. */
  function Retain(groups: seq<Group>): (r: seq<Group>)
    ensures forall g :: g in r <==> g in groups && g.units > 0
  {
    if groups == [] then []
    else
      var rest := Retain(groups[..|groups| - 1]);
      assert groups == groups[..|groups| - 1] + [groups[|groups| - 1]];
      if groups[|groups| - 1].units > 0 then rest + [groups[|groups| - 1]] else rest
  }

  /** Dropping the dead keeps the groups well formed and, as no group has
      fewer than 0 units, loses no units. */
  lemma {:induction false} RetainTotal(groups: seq<Group>)
    requires WellFormed(groups)
    ensures WellFormed(Retain(groups)) && Total(Retain(groups)) == Total(groups)
  {
    if groups != [] {
      var init := groups[..|groups| - 1];
      var last := groups[|groups| - 1];
      RetainTotal(init);
      if last.units > 0 {
        TotalAppend(Retain(init), last);
      }
    }
  }

  lemma TotalAppend(groups: seq<Group>, g: Group)
    ensures Total(groups + [g]) == Total(groups) + g.units
  {
    assert (groups + [g])[..|groups|] == groups;
  }

  /** `iter().any(|g| g.army == army)`. */
  function AnyOf(groups: seq<Group>, army: Army): (r: bool)
    ensures r <==> exists k :: 0 <= k < |groups| && groups[k].army == army
  {
    if groups == [] then false
    else groups[0].army == army || AnyOf(groups[1..], army)
  }

  // ---------------------------------------------------------------------
  // `sort_by`: a stable sort, strongest key first

  /** Lexicographic "greater than" on pairs of keys. */
  predicate Above(a: (int, int), b: (int, int)) {
    a.0 > b.0 || (a.0 == b.0 && a.1 > b.1)
  }

  /** x placed before the first element it is above: after every element
      with the same key, which keeps the sort stable. */
  function Insert<T>(s: seq<T>, x: T, key: T -> (int, int)): (r: seq<T>)
    ensures multiset(r) == multiset(s) + multiset{x}
  {
    if s == [] then [x]
    else if Above(key(x), key(s[0])) then [x] + s
    else
      assert s == [s[0]] + s[1..];
      [s[0]] + Insert(s[1..], x, key)
  }

  /** The stable sort of xs by descending key, as `sort_by` with the
      comparison reversed gives it. */
  function SortDesc<T>(xs: seq<T>, key: T -> (int, int)): (r: seq<T>)
    ensures multiset(r) == multiset(xs)
  {
    if xs == [] then []
    else
      assert xs == xs[..|xs| - 1] + [xs[|xs| - 1]];
      Insert(SortDesc(xs[..|xs| - 1], key), xs[|xs| - 1], key)
  }

  /** No element has a larger key than one before it. */
  predicate SortedDesc<T>(s: seq<T>, key: T -> (int, int)) {
    forall i, j :: 0 <= i < j < |s| ==> !Above(key(s[j]), key(s[i]))
  }

  lemma {:induction false} InsertSorted<T>(s: seq<T>, x: T, key: T -> (int, int))
    requires SortedDesc(s, key)
    ensures SortedDesc(Insert(s, x, key), key)
  {
    if s != [] && !Above(key(x), key(s[0])) {
      InsertSorted(s[1..], x, key);
      var r := Insert(s[1..], x, key);
      forall e | e in r
        ensures !Above(key(e), key(s[0]))
      {
        assert e in multiset(r);
        if e != x {
          var j :| 0 <= j < |s[1..]| && s[1..][j] == e;
          assert s[j + 1] == e;
        }
      }
      assert forall j :: 0 <= j < |r| ==> r[j] in r;
    }
  }

  /** The sort gives its input back, ordered by descending key. */
  lemma {:induction false} SortDescSorted<T>(xs: seq<T>, key: T -> (int, int))
    ensures SortedDesc(SortDesc(xs, key), key) && multiset(SortDesc(xs, key)) == multiset(xs)
  {
    if xs != [] {
      SortDescSorted(xs[..|xs| - 1], key);
      InsertSorted(SortDesc(xs[..|xs| - 1], key), xs[|xs| - 1], key);
    }
  }

  // ---------------------------------------------------------------------
  // Target selection

  /** The order in which groups choose: by descending effective power, then
      by descending initiative. */
  function ChooseKey(groups: seq<Group>): nat -> (int, int) {
    (i: nat) => if i < |groups| then (EffectivePower(groups[i]), groups[i].initiative) else (0, 0)
  }

  function Indices(n: nat): (r: seq<nat>)
    ensures |r| == n && forall k :: 0 <= k < n ==> r[k] == k
  {
    seq(n, k => k)
  }

  /** A defender attacker a may pick: of the other army, not yet picked,
      alive, and one it would damage. */
  predicate Eligible(groups: seq<Group>, a: nat, targeted: set<nat>, d: nat)
    requires a < |groups|
  {
    && d < |groups|
    && groups[d].army != groups[a].army
    && d !in targeted
    && groups[d].units > 0
    && DamageTo(groups[a], groups[d]) != 0
  }

  /** The order of preference: damage dealt, then the defender's effective
      power, then its initiative. */
  function Preference(groups: seq<Group>, a: nat, d: nat): (int, int, int)
    requires a < |groups| && d < |groups|
  {
    (DamageTo(groups[a], groups[d]), EffectivePower(groups[d]), groups[d].initiative)
  }

  predicate Prefers(p: (int, int, int), q: (int, int, int)) {
    p.0 > q.0 || (p.0 == q.0 && p.1 > q.1) || (p.0 == q.0 && p.1 == q.1 && p.2 > q.2)
  }

  /** The best target among defenders 0..n: each eligible defender
      replaces the best so far when `is_better` holds. */
  function Best(groups: seq<Group>, a: nat, targeted: set<nat>, n: nat): (r: Option<nat>)
    requires a < |groups| && n <= |groups|
    ensures r.Some? ==> r.value < n && Eligible(groups, a, targeted, r.value)
  {
    if n == 0 then None
    else
      var best := Best(groups, a, targeted, n - 1);
      var d := n - 1;
      if Eligible(groups, a, targeted, d)
         && (best.None? || Prefers(Preference(groups, a, d), Preference(groups, a, best.value)))
      then Some(d)
      else best
  }

  /** The chosen target is eligible, no eligible defender is preferred to
      it, and among equally preferred ones it is the first; None means there
      was no eligible defender. */
  lemma {:induction false} BestIsBest(groups: seq<Group>, a: nat, targeted: set<nat>, n: nat)
    requires a < |groups| && n <= |groups|
    ensures Best(groups, a, targeted, n).None? <==> forall d: nat :: d < n ==> !Eligible(groups, a, targeted, d)
    ensures Best(groups, a, targeted, n).Some? ==>
              var b := Best(groups, a, targeted, n).value;
              forall d: nat :: d < n && Eligible(groups, a, targeted, d) ==>
                !Prefers(Preference(groups, a, d), Preference(groups, a, b))
                && (Preference(groups, a, d) == Preference(groups, a, b) ==> b <= d)
  {
    if n > 0 {
      BestIsBest(groups, a, targeted, n - 1);
    }
  }

  /** `targets` and `targeted` after the attackers of order, in turn, have
      chosen. */
  function Select(groups: seq<Group>, order: seq<nat>): (r: (seq<(nat, nat)>, set<nat>))
    requires forall k :: 0 <= k < |order| ==> order[k] < |groups|
  {
    if order == [] then ([], {})
    else
      var before := Select(groups, order[..|order| - 1]);
      var a := order[|order| - 1];
      if groups[a].units <= 0 then before
      else
        match Best(groups, a, before.1, |groups|)
        case None => before
        case Some(d) => (before.0 + [(a, d)], before.1 + {d})
  }

  /** Every pair (a, d) is valid and d was eligible for a: of the other
      army, alive and damaged by a; `targeted` is exactly the set of chosen
      defenders, and no defender is chosen twice. */
  ghost predicate Chosen(groups: seq<Group>, targets: seq<(nat, nat)>, targeted: set<nat>) {
    && (forall k :: 0 <= k < |targets| ==>
          && targets[k].0 < |groups| && Eligible(groups, targets[k].0, {}, targets[k].1))
    && (forall d :: d in targeted <==> exists k :: 0 <= k < |targets| && targets[k].1 == d)
    && DistinctDefenders(targets)
  }

  predicate DistinctDefenders(targets: seq<(nat, nat)>) {
    forall i, j :: 0 <= i < j < |targets| ==> targets[i].1 != targets[j].1
  }

  lemma {:induction false} SelectChosen(groups: seq<Group>, order: seq<nat>)
    requires forall k :: 0 <= k < |order| ==> order[k] < |groups|
    ensures Chosen(groups, Select(groups, order).0, Select(groups, order).1)
  {
    if order != [] {
      var init := order[..|order| - 1];
      SelectChosen(groups, init);
      var before := Select(groups, init);
      var a := order[|order| - 1];
      if groups[a].units > 0 && Best(groups, a, before.1, |groups|).Some? {
        var d := Best(groups, a, before.1, |groups|).value;
        var ts := before.0 + [(a, d)];
        assert forall k :: 0 <= k < |before.0| ==> ts[k] == before.0[k];
        assert ts[|before.0|] == (a, d);
      }
    }
  }

  /** The selection loop of `simulate_combat`: attackers in order, each
      choosing the best defender not yet chosen. */
  method SelectTargets(groups: seq<Group>, order: seq<nat>) returns (targets: seq<(nat, nat)>)
    requires forall k :: 0 <= k < |order| ==> order[k] < |groups|
    ensures targets == Select(groups, order).0
  {
    targets := [];
    var targeted: set<nat> := {};
    for i := 0 to |order|
      invariant (targets, targeted) == Select(groups, order[..i])
    {
      assert order[..i + 1][..i] == order[..i];
      var a := order[i];
      if groups[a].units <= 0 {
        continue;
      }
      var best := ChooseTarget(groups, a, targeted);
      if best.Some? {
        targets := targets + [(a, best.value)];
        targeted := targeted + {best.value};
      }
    }
    assert order[..|order|] == order;
  }

  /** The inner loop over defenders, with `best_target` and `best_damage`. */
  method ChooseTarget(groups: seq<Group>, a: nat, targeted: set<nat>) returns (best: Option<nat>)
    requires a < |groups|
    ensures best == Best(groups, a, targeted, |groups|)
  {
    best := None;
    var bestDamage := 0;
    for d := 0 to |groups|
      invariant best == Best(groups, a, targeted, d)
      invariant best.Some? ==> bestDamage == DamageTo(groups[a], groups[best.value])
    {
      var defender := groups[d];
      if defender.army == groups[a].army || d in targeted || defender.units <= 0 {
        continue;
      }
      var damage := DamageTo(groups[a], defender);
      if damage == 0 {
        continue;
      }
      var isBetter := if best.Some? then
          damage > bestDamage
          || (damage == bestDamage && EffectivePower(defender) > EffectivePower(groups[best.value]))
          || (damage == bestDamage && EffectivePower(defender) == EffectivePower(groups[best.value])
              && defender.initiative > groups[best.value].initiative)
        else true;
      if isBetter {
        best := Some(d);
        bestDamage := damage;
      }
    }
  }

  // ---------------------------------------------------------------------
  // Attack

  /** The attack order: by descending initiative of the attacker. */
  function AttackKey(groups: seq<Group>): ((nat, nat)) -> (int, int) {
    (p: (nat, nat)) => if p.0 < |groups| then (groups[p.0].initiative, 0) else (0, 0)
  }

  predicate InRange(groups: seq<Group>, targets: seq<(nat, nat)>) {
    forall k :: 0 <= k < |targets| ==> targets[k].0 < |groups| && targets[k].1 < |groups|
  }

  /** One attack: skipped by an attacker with no units; else the damage
      recomputed now, divided by the defender's hit points, is the number of
      units killed, and the defender never drops below 0 units. The flag
      says whether the division gave more than 0. */
  function Strike(groups: seq<Group>, a: nat, d: nat): (r: (seq<Group>, bool))
    requires WellFormed(groups) && a < |groups| && d < |groups|
    ensures |r.0| == |groups| && WellFormed(r.0)
  {
    if groups[a].units <= 0 then (groups, false)
    else
      var killed := DamageTo(groups[a], groups[d]) / groups[d].hp;
      var left := if groups[d].units - killed > 0 then groups[d].units - killed else 0;
      (groups[d := groups[d].(units := left)], killed > 0)
  }

  /** The groups after the attacks of targets, in order, and whether any of
      them killed. */
  function Attack(groups: seq<Group>, targets: seq<(nat, nat)>): (r: (seq<Group>, bool))
    requires WellFormed(groups) && InRange(groups, targets)
    ensures |r.0| == |groups| && WellFormed(r.0)
  {
    if targets == [] then (groups, false)
    else
      var before := Attack(groups, targets[..|targets| - 1]);
      var t := targets[|targets| - 1];
      var after := Strike(before.0, t.0, t.1);
      (after.0, before.1 || after.1)
  }

  /** The attack loop of `simulate_combat`. */
  method AttackPhase(groups: seq<Group>, targets: seq<(nat, nat)>) returns (r: seq<Group>, anyKilled: bool)
    requires WellFormed(groups) && InRange(groups, targets)
    ensures (r, anyKilled) == Attack(groups, targets)
  {
    r := groups;
    anyKilled := false;
    for i := 0 to |targets|
      invariant (r, anyKilled) == Attack(groups, targets[..i])
    {
      assert targets[..i + 1][..i] == targets[..i];
      var (a, d) := targets[i];
      if r[a].units <= 0 {
        continue;
      }
      var damage := DamageTo(r[a], r[d]);
      var killed := damage / r[d].hp;
      if killed > 0 {
        anyKilled := true;
      }
      r := r[d := r[d].(units := if r[d].units - killed > 0 then r[d].units - killed else 0)];
    }
    assert targets[..|targets|] == targets;
  }

  lemma TotalUpdate(groups: seq<Group>, d: nat, u: int)
    requires d < |groups|
    ensures Total(groups[d := groups[d].(units := u)]) == Total(groups) - groups[d].units + u
  {
    if d < |groups| - 1 {
      var g' := groups[d := groups[d].(units := u)];
      assert g'[..|g'| - 1] == groups[..|groups| - 1][d := groups[d].(units := u)];
      TotalUpdate(groups[..|groups| - 1], d, u);
    }
  }

  /** Attacks change only the units of groups, and only of their
      defenders. */
  lemma {:induction false} AttackFrame(groups: seq<Group>, targets: seq<(nat, nat)>)
    requires WellFormed(groups) && InRange(groups, targets)
    ensures var r := Attack(groups, targets).0;
            && (forall i :: 0 <= i < |groups| ==> r[i] == groups[i].(units := r[i].units))
            && (forall i :: 0 <= i < |groups| && (forall k :: 0 <= k < |targets| ==> targets[k].1 != i) ==>
                  r[i] == groups[i])
  {
    if targets != [] {
      var init := targets[..|targets| - 1];
      assert forall k :: 0 <= k < |init| ==> init[k] == targets[k];
      AttackFrame(groups, init);
    }
  }

  lemma QuotientNonNegative(x: int, y: int)
    requires x >= 0 && y > 0
    ensures x / y >= 0
  {
  }

  /** A defender alive at the start and attacked once loses units exactly
      when the division killed some, so the attacks never raise the total
      and lower it when any killed. */
  lemma {:induction false} AttackLowers(groups: seq<Group>, targets: seq<(nat, nat)>)
    requires WellFormed(groups) && InRange(groups, targets) && DistinctDefenders(targets)
    requires forall k :: 0 <= k < |targets| ==> groups[targets[k].1].units > 0
    ensures Total(Attack(groups, targets).0) <= Total(groups)
    ensures Attack(groups, targets).1 ==> Total(Attack(groups, targets).0) < Total(groups)
  {
    if targets != [] {
      var init := targets[..|targets| - 1];
      assert forall k :: 0 <= k < |init| ==> init[k] == targets[k];
      AttackLowers(groups, init);
      AttackFrame(groups, init);
      var before := Attack(groups, init).0;
      var (a, d) := targets[|targets| - 1];
      assert forall k :: 0 <= k < |init| ==> init[k].1 != d;
      assert before[d] == groups[d];
      assert Attack(groups, targets) == (Strike(before, a, d).0, Attack(groups, init).1 || Strike(before, a, d).1);
      StrikeLowers(before, a, d);
    }
  }

  /** One attack on a defender with units left never raises the total and
      lowers it when it kills. */
  lemma StrikeLowers(groups: seq<Group>, a: nat, d: nat)
    requires WellFormed(groups) && a < |groups| && d < |groups| && groups[d].units > 0
    ensures Total(Strike(groups, a, d).0) <= Total(groups)
    ensures Strike(groups, a, d).1 ==> Total(Strike(groups, a, d).0) < Total(groups)
  {
    if groups[a].units > 0 {
      var damage := DamageTo(groups[a], groups[d]);
      PowerNonNegative(groups[a]);
      DamageCases(groups[a], groups[d]);
      assert groups[d].hp > 0;
      var killed := damage / groups[d].hp;
      QuotientNonNegative(damage, groups[d].hp);
      var left := if groups[d].units - killed > 0 then groups[d].units - killed else 0;
      assert left <= groups[d].units && (killed > 0 ==> left < groups[d].units);
      TotalUpdate(groups, d, left);
    }
  }

  // ---------------------------------------------------------------------
  // The combat loop

  /** One round on the live groups: choose, sort the choices, attack. */
  function Round(alive: seq<Group>): (r: (seq<Group>, bool))
    requires WellFormed(alive)
    ensures |r.0| == |alive| && WellFormed(r.0)
  {
    var order := SortDesc(Indices(|alive|), ChooseKey(alive));
    OrderInRange(alive, order);
    var targets := SortDesc(Select(alive, order).0, AttackKey(alive));
    SelectInRange(alive, order, targets);
    Attack(alive, targets)
  }

  lemma OrderInRange(alive: seq<Group>, order: seq<nat>)
    requires order == SortDesc(Indices(|alive|), ChooseKey(alive))
    ensures forall k :: 0 <= k < |order| ==> order[k] < |alive|
  {
    forall k | 0 <= k < |order|
      ensures order[k] < |alive|
    {
      assert order[k] in multiset(Indices(|alive|));
    }
  }

  lemma SelectInRange(alive: seq<Group>, order: seq<nat>, targets: seq<(nat, nat)>)
    requires forall k :: 0 <= k < |order| ==> order[k] < |alive|
    requires targets == SortDesc(Select(alive, order).0, AttackKey(alive))
    ensures InRange(alive, targets)
    ensures DistinctDefenders(targets)
    ensures forall k :: 0 <= k < |targets| ==> alive[targets[k].1].units > 0
  {
    var chosen := Select(alive, order).0;
    SelectChosen(alive, order);
    forall k | 0 <= k < |targets|
      ensures targets[k].0 < |alive| && targets[k].1 < |alive| && alive[targets[k].1].units > 0
    {
      assert targets[k] in multiset(chosen);
    }
    forall i, j | 0 <= i < j < |targets|
      ensures targets[i].1 != targets[j].1
    {
      SameDefenderSame(chosen, targets, i, j);
    }
  }

  /** Two places of a permutation of a list with distinct defenders never
      share a defender. */
  lemma SameDefenderSame(chosen: seq<(nat, nat)>, targets: seq<(nat, nat)>, i: nat, j: nat)
    requires DistinctDefenders(chosen) && multiset(targets) == multiset(chosen)
    requires i < j < |targets|
    ensures targets[i].1 != targets[j].1
  {
    if targets[i].1 == targets[j].1 {
      assert targets[i] in multiset(chosen) && targets[j] in multiset(chosen);
      var p :| 0 <= p < |chosen| && chosen[p] == targets[i];
      var q :| 0 <= q < |chosen| && chosen[q] == targets[j];
      assert p == q;
      var s := targets[..i] + targets[i + 1..];
      assert targets == s[..i] + [targets[i]] + s[i..];
      assert targets[j] == s[j - 1];
      assert multiset(targets) == multiset(s) + multiset{targets[i]};
      assert multiset(targets)[targets[i]] >= 2;
      OnlyOnce(chosen, p);
      assert false;
    }
  }

  /** In a list with distinct defenders, each pair occurs once. */
  lemma {:induction false} OnlyOnce(chosen: seq<(nat, nat)>, p: nat)
    requires DistinctDefenders(chosen) && p < |chosen|
    ensures multiset(chosen)[chosen[p]] == 1
  {
    var last := |chosen| - 1;
    var init := chosen[..last];
    assert chosen == init + [chosen[last]];
    assert DistinctDefenders(init);
    if p == last {
      assert chosen[p] !in init;
    } else {
      OnlyOnce(init, p);
      assert init[p] == chosen[p] && chosen[last] != chosen[p];
    }
  }

  /** `simulate_combat` after the boost: drop the dead; if an army is gone
      the other wins with the units left; else fight a round, and stop in a
      stalemate when nothing died. Each round that kills lowers the total of
      units, so the combat always ends. */
  function Fight(groups: seq<Group>): (r: Option<(Army, int)>)
    requires WellFormed(groups)
    decreases Total(groups)
  {
    var alive := Retain(groups);
    RetainTotal(groups);
    if !AnyOf(alive, ImmuneSystem) then Some((Infection, Total(alive)))
    else if !AnyOf(alive, Infection) then Some((ImmuneSystem, Total(alive)))
    else
      var after := Round(alive);
      if !after.1 then None
      else
        FightShrinks(groups);
        TotalNonNegative(after.0);
        Fight(after.0)
  }

  /** A round after dropping the dead that kills lowers the total. */
  lemma FightShrinks(groups: seq<Group>)
    requires WellFormed(groups)
    ensures WellFormed(Retain(groups))
    ensures Round(Retain(groups)).1 ==> Total(Round(Retain(groups)).0) < Total(groups)
  {
    RetainTotal(groups);
    RoundLowers(Retain(groups));
  }

  lemma RoundLowers(alive: seq<Group>)
    requires WellFormed(alive)
    ensures Round(alive).1 ==> Total(Round(alive).0) < Total(alive)
  {
    var order := SortDesc(Indices(|alive|), ChooseKey(alive));
    OrderInRange(alive, order);
    var targets := SortDesc(Select(alive, order).0, AttackKey(alive));
    SelectInRange(alive, order, targets);
    AttackLowers(alive, targets);
  }

  /** A combat that ends with a winner leaves it with a non-negative number
      of units, all of its own army. */
  lemma {:induction false} FightWinner(groups: seq<Group>)
    requires WellFormed(groups)
    ensures Fight(groups).Some? ==> Fight(groups).value.1 >= 0
    decreases Total(groups)
  {
    var alive := Retain(groups);
    RetainTotal(groups);
    TotalNonNegative(alive);
    if AnyOf(alive, ImmuneSystem) && AnyOf(alive, Infection) {
      var after := Round(alive);
      if after.1 {
        RoundLowers(alive);
        FightWinner(after.0);
      }
    }
  }

  lemma {:induction false} TotalNonNegative(groups: seq<Group>)
    requires WellFormed(groups)
    ensures Total(groups) >= 0
  {
    if groups != [] {
      TotalNonNegative(groups[..|groups| - 1]);
    }
  }

  /** `simulate_combat`: the boost loop, then the rounds on the vector. */
  method SimulateCombat(groups: seq<Group>, boost: int) returns (r: Option<(Army, int)>)
    requires WellFormed(groups) && boost >= 0
    ensures r == Fight(Boosted(groups, boost))
  {
    var gs := ApplyBoost(groups, boost);
    BoostWellFormed(groups, boost);
    while true
      invariant WellFormed(gs) && Fight(gs) == Fight(Boosted(groups, boost))
      decreases Total(gs)
    {
      ghost var before := gs;
      gs := Retain(gs);
      RetainTotal(before);
      var immuneAlive := AnyOf(gs, ImmuneSystem);
      var infectionAlive := AnyOf(gs, Infection);
      if !immuneAlive {
        return Some((Infection, Total(gs)));
      }
      if !infectionAlive {
        return Some((ImmuneSystem, Total(gs)));
      }
      var order := SortDesc(Indices(|gs|), ChooseKey(gs));
      OrderInRange(gs, order);
      var targets := SelectTargets(gs, order);
      targets := SortDesc(targets, AttackKey(gs));
      SelectInRange(gs, order, targets);
      var alive := gs;
      var anyKilled;
      gs, anyKilled := AttackPhase(gs, targets);
      if !anyKilled {
        return None;
      }
      RoundLowers(alive);
      TotalNonNegative(gs);
    }
  }

  /** `part1`: the units left to the winner without a boost, 0 on a
      stalemate. */
  method Part1(groups: seq<Group>) returns (r: int)
    requires WellFormed(groups)
    ensures r == match Fight(Boosted(groups, 0)) case None => 0 case Some(w) => w.1
    ensures r >= 0
  {
    var outcome := SimulateCombat(groups, 0);
    BoostWellFormed(groups, 0);
    FightWinner(Boosted(groups, 0));
    r := if outcome.Some? then outcome.value.1 else 0;
  }

  /** What `simulate_combat` gives for the boost. */
  function Outcome(groups: seq<Group>, boost: nat): Option<(Army, int)>
    requires WellFormed(groups)
  {
    BoostWellFormed(groups, boost);
    Fight(Boosted(groups, boost))
  }

  /** The immune system wins with the given boost. */
  predicate ImmuneWins(groups: seq<Group>, boost: nat)
    requires WellFormed(groups)
  {
    Outcome(groups, boost).Some? && Outcome(groups, boost).value.0 == ImmuneSystem
  }

  /** The first n from `from` to last for which p holds, if any. */
  function FirstFrom(p: nat -> bool, from: nat, last: nat): (r: Option<nat>)
    ensures r.Some? ==> from <= r.value <= last && p(r.value)
    decreases last + 1 - from
  {
    if from > last then None
    else if p(from) then Some(from)
    else FirstFrom(p, from + 1, last)
  }

  /** FirstFrom finds the least n in range for which p holds, and None
      exactly when p holds nowhere in range. */
  lemma {:induction false} FirstFromIsFirst(p: nat -> bool, from: nat, last: nat)
    ensures FirstFrom(p, from, last).None? <==> forall c: nat :: from <= c <= last ==> !p(c)
    ensures FirstFrom(p, from, last).Some? ==>
              forall c: nat :: from <= c < FirstFrom(p, from, last).value ==> !p(c)
    decreases last + 1 - from
  {
    if from <= last && !p(from) {
      FirstFromIsFirst(p, from + 1, last);
    }
  }

  /** Whether the immune system wins with a boost. */
  function Wins(groups: seq<Group>): nat -> bool {
    (b: nat) => WellFormed(groups) && ImmuneWins(groups, b)
  }

  /** One pass of the loop of `part2`: whether the immune system wins with
      the boost, and with how many units. */
  method TryBoost(groups: seq<Group>, boost: nat) returns (won: bool, units: int)
    requires WellFormed(groups)
    ensures won == ImmuneWins(groups, boost)
    ensures won ==> units == Outcome(groups, boost).value.1
  {
    var outcome := SimulateCombat(groups, boost);
    won := outcome.Some? && outcome.value.0 == ImmuneSystem;
    units := if won then outcome.value.1 else 0;
  }

  /** `part2`, trying boosts 1 to maxBoost: the units left to the immune
      system with the first boost that makes it win, or None when none up to
      maxBoost does. */
  method Part2(groups: seq<Group>, maxBoost: nat) returns (r: Option<int>)
    requires WellFormed(groups)
    ensures r == match FirstFrom(Wins(groups), 1, maxBoost)
                 case None => None
                 case Some(b) => Some(Outcome(groups, b).value.1)
  {
    var boost: nat := 1;
    while boost <= maxBoost
      invariant 1 <= boost <= maxBoost + 1
      invariant FirstFrom(Wins(groups), boost, maxBoost) == FirstFrom(Wins(groups), 1, maxBoost)
    {
      var won, units := TryBoost(groups, boost);
      if won {
        return Some(units);
      }
      boost := boost + 1;
    }
    return None;
  }
}
