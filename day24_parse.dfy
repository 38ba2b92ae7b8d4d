/** `parse_input` of rust/src/day24.rs: army headers, one group per line,
    and the weaknesses and immunities in parentheses. */
module Day24Parse {

  import opened Wrappers
  import opened Text
  import opened Tokens
  import opened Day24

  const ImmuneHeader: string := "Immune System:"
  const InfectionHeader: string := "Infection:"
  const WeakTag: string := "weak to "
  const ImmuneTag: string := "immune to "
  const PartSep: string := "; "
  const NameSep: string := ", "

  // ---------------------------------------------------------------------
  // The parenthesised part

  /** The loop over the "; " parts: a "weak to " part sets the weaknesses,
      an "immune to " part the immunities, a later part of the same kind
      replacing an earlier one, and any other part is ignored. */
  function Properties(parts: seq<string>, weak: seq<string>, immune: seq<string>): (seq<string>, seq<string>)
    decreases |parts|
  {
    if parts == [] then (weak, immune)
    else
      var part := parts[0];
      if WeakTag <= part then Properties(parts[1..], SplitStr(part[|WeakTag|..], NameSep), immune)
      else if ImmuneTag <= part then Properties(parts[1..], weak, SplitStr(part[|ImmuneTag|..], NameSep))
      else Properties(parts[1..], weak, immune)
  }

  /** The text between the first '(' and the first ')', when both are
      there; None where the slice would panic, ')' not after '('. */
  function Special(line: string): (r: Option<Option<string>>)
  {
    match Find(line, '(')
    case None => Some(None)
    case Some(start) =>
      match Find(line, ')')
      case None => Some(None)
      case Some(end) => if start + 1 <= end then Some(Some(line[start + 1..end])) else None
  }

  /** The weaknesses and immunities of a line, empty without parentheses. */
  function PropertiesOf(line: string): Option<(seq<string>, seq<string>)> {
    match Special(line)
    case None => None
    case Some(None) => Some(([], []))
    case Some(Some(text)) => Some(Properties(SplitStr(text, PartSep), [], []))
  }

  /** The `for part in special.split("; ")` loop. */
  method ReadProperties(text: string) returns (weak: seq<string>, immune: seq<string>)
    ensures (weak, immune) == Properties(SplitStr(text, PartSep), [], [])
  {
    var parts := SplitStr(text, PartSep);
    weak, immune := [], [];
    for i := 0 to |parts|
      invariant Properties(parts[i..], weak, immune) == Properties(parts, [], [])
    {
      var part := parts[i];
      assert parts[i..][0] == part && parts[i..][1..] == parts[i + 1..];
      if WeakTag <= part {
        weak := SplitStr(part[|WeakTag|..], NameSep);
      } else if ImmuneTag <= part {
        immune := SplitStr(part[|ImmuneTag|..], NameSep);
      }
    }
  }

  /** Names that survive the round trip: non-empty and free of ',' and ';'. */
  predicate Names(ws: seq<string>) {
    |ws| >= 1 && forall k :: 0 <= k < |ws| ==> ',' !in ws[k] && ';' !in ws[k]
  }

  /** The "weak to a, b; immune to c" text for the given lists. */
  function ShowProperties(weak: seq<string>, immune: seq<string>): string
    requires |weak| >= 1 && |immune| >= 1
  {
    JoinStr([WeakTag + JoinStr(weak, NameSep), ImmuneTag + JoinStr(immune, NameSep)], PartSep)
  }

  lemma {:induction false} JoinStrFree(ws: seq<string>, sep: string, c: char)
    requires |ws| >= 1 && c !in sep && forall k :: 0 <= k < |ws| ==> c !in ws[k]
    ensures c !in JoinStr(ws, sep)
  {
    if |ws| > 1 {
      JoinStrFree(ws[1..], sep, c);
    }
  }

  /** Reading the text written for two lists of names gives them back. */
  lemma ReadShowProperties(weak: seq<string>, immune: seq<string>)
    requires Names(weak) && Names(immune)
    ensures Properties(SplitStr(ShowProperties(weak, immune), PartSep), [], []) == (weak, immune)
  {
    var w := WeakTag + JoinStr(weak, NameSep);
    var i := ImmuneTag + JoinStr(immune, NameSep);
    JoinStrFree(weak, NameSep, ';');
    JoinStrFree(immune, NameSep, ';');
    assert ';' !in w && ';' !in i;
    SplitStrJoin([w, i], PartSep);
    SplitStrJoin(weak, NameSep);
    SplitStrJoin(immune, NameSep);
    assert w[|WeakTag|..] == JoinStr(weak, NameSep);
    assert i[|ImmuneTag|..] == JoinStr(immune, NameSep);
    assert !(WeakTag <= i) by { assert i[0] != WeakTag[0]; }
    var none: seq<string> := [];
    assert [w, i][1..] == [i] && [i][1..] == none;
    assert Properties(none, weak, immune) == (weak, immune);
    assert Properties([i], weak, []) == (weak, immune);
    assert Properties([w, i], [], []) == Properties([i], weak, []);
  }

  // ---------------------------------------------------------------------
  // A group line

  /** `iter().position(|&s| s == w)`. */
  function Position(ws: seq<string>, w: string): (r: Option<nat>)
    ensures r.Some? ==> r.value < |ws| && ws[r.value] == w && w !in ws[..r.value]
    ensures r.None? ==> w !in ws
  {
    if ws == [] then None
    else if ws[0] == w then Some(0)
    else
      match Position(ws[1..], w)
      case None => None
      case Some(i) =>
        assert ws[..i + 1] == [ws[0]] + ws[1..][..i];
        Some(i + 1)
  }

  /** The group that a line's words and special part describe, or None
      where the source panics. */
  function GroupFrom(parts: seq<string>, props: (seq<string>, seq<string>), army: Army, id: nat): (r: Option<Group>)
    ensures r.Some? ==> r.value.id == id && r.value.army == army
  {
    if |parts| < 5 then None
    else
      match Position(parts, "does")
      case None => None
      case Some(does) =>
        if does + 2 >= |parts| then None
        else
          var units := ParseI32(parts[0]);
          var hp := ParseI32(parts[4]);
          var damage := ParseI32(parts[does + 1]);
          var initiative := ParseI32(parts[|parts| - 1]);
          if units.None? || hp.None? || damage.None? || initiative.None? then None
          else Some(Group(id, army, units.value, hp.value, damage.value, parts[does + 2],
                          initiative.value, props.0, props.1))
  }

  /** The group a line describes, or None where the source panics. */
  function GroupOf(line: string, army: Army, id: nat): (r: Option<Group>)
    ensures r.Some? ==> r.value.id == id && r.value.army == army
  {
    match PropertiesOf(line)
    case None => None
    case Some(props) => GroupFrom(SplitWhitespace(line), props, army, id)
  }

  /** Where the fields come from: units from the first word, hit points
      from the fifth, attack damage and type from the two words after the
      first "does", initiative from the last word; the weaknesses and
      immunities are the special part's. */
  lemma GroupFields(parts: seq<string>, props: (seq<string>, seq<string>), army: Army, id: nat)
    requires GroupFrom(parts, props, army, id).Some?
    ensures var g := GroupFrom(parts, props, army, id).value;
            && |parts| >= 5 && Position(parts, "does").Some?
            && Position(parts, "does").value + 2 < |parts|
            && var does := Position(parts, "does").value;
            && Some(g.units) == ParseI32(parts[0])
            && Some(g.hp) == ParseI32(parts[4])
            && Some(g.attackDamage) == ParseI32(parts[does + 1])
            && g.attackType == parts[does + 2]
            && Some(g.initiative) == ParseI32(parts[|parts| - 1])
            && props == (g.weaknesses, g.immunities)
  {
    var pos := Position(parts, "does");
    assert |parts| >= 5 && pos.Some?;
    var does := pos.value;
    assert does + 2 < |parts|;
    var units, hp := ParseI32(parts[0]), ParseI32(parts[4]);
    var damage, initiative := ParseI32(parts[does + 1]), ParseI32(parts[|parts| - 1]);
    assert units.Some? && hp.Some? && damage.Some? && initiative.Some?;
  }

  /** The `if let Some(start) = line.find('(')` block. */
  method ReadSpecial(line: string) returns (r: Option<(seq<string>, seq<string>)>)
    ensures r == PropertiesOf(line)
  {
    var weak: seq<string> := [];
    var immune: seq<string> := [];
    var start := Find(line, '(');
    if start.Some? {
      var end := Find(line, ')');
      if end.Some? {
        if start.value + 1 > end.value {
          return None;
        }
        weak, immune := ReadProperties(line[start.value + 1..end.value]);
      }
    }
    return Some((weak, immune));
  }

  /** The body of the `else` branch: the special part, then the words. */
  method ParseGroup(line: string, army: Army, id: nat) returns (r: Option<Group>)
    ensures r == GroupOf(line, army, id)
  {
    var props := ReadSpecial(line);
    if props.None? {
      return None;
    }
    var parts := SplitWhitespace(line);
    r := ReadWords(parts, props.value, army, id);
  }

  /** The words of a group line after the special part is read. */
  method ReadWords(parts: seq<string>, props: (seq<string>, seq<string>), army: Army, id: nat)
    returns (r: Option<Group>)
    ensures r == GroupFrom(parts, props, army, id)
  {
    var (weak, immune) := props;
    if |parts| < 5 {
      return None;
    }
    var units := ParseI32(parts[0]);
    var hp := ParseI32(parts[4]);
    var does := Position(parts, "does");
    if units.None? || hp.None? || does.None? || does.value + 2 >= |parts| {
      return None;
    }
    var damage := ParseI32(parts[does.value + 1]);
    var initiative := ParseI32(parts[|parts| - 1]);
    if damage.None? || initiative.None? {
      return None;
    }
    r := Some(Group(id, army, units.value, hp.value, damage.value, parts[does.value + 2],
                    initiative.value, weak, immune));
  }

  // ---------------------------------------------------------------------
  // The lines

  /** A line that is neither blank nor an army header describes a group. */
  predicate IsGroupLine(line: string) {
    Trim(line) != [] && !(ImmuneHeader <= line) && !(InfectionHeader <= line)
  }

  /** The army after a line that is not a group line: a header switches to
      its army, a blank line keeps the current one. */
  function ArmyAfter(line: string, army: Army): Army {
    if Trim(line) == [] then army
    else if ImmuneHeader <= line then ImmuneSystem
    else if InfectionHeader <= line then Infection
    else army
  }

  /** The loop of `parse_input` from a line on, with the army, the next id
      and the groups so far: blank lines skipped, headers switching the
      army, every other line one group. */
  function ParseFrom(lines: seq<string>, army: Army, id: nat, acc: seq<Group>): Option<seq<Group>>
    decreases |lines|
  {
    if lines == [] then Some(acc)
    else if !IsGroupLine(lines[0]) then ParseFrom(lines[1..], ArmyAfter(lines[0], army), id, acc)
    else
      match GroupOf(lines[0], army, id)
      case None => None
      case Some(g) => ParseFrom(lines[1..], army, id + 1, acc + [g])
  }

  /** `parse_input`: the groups pushed in order, from the immune system on. */
  method ParseInput(lines: seq<string>) returns (r: Option<seq<Group>>)
    ensures r == ParseFrom(lines, ImmuneSystem, 0, [])
  {
    var groups: seq<Group> := [];
    var army := ImmuneSystem;
    var id: nat := 0;
    for i := 0 to |lines|
      invariant ParseFrom(lines[i..], army, id, groups) == ParseFrom(lines, ImmuneSystem, 0, [])
    {
      var line := lines[i];
      assert lines[i..][0] == line && lines[i..][1..] == lines[i + 1..];
      if Trim(line) == [] {
        continue;
      } else if ImmuneHeader <= line {
        army := ImmuneSystem;
      } else if InfectionHeader <= line {
        army := Infection;
      } else {
        assert IsGroupLine(line);
        var g := ParseGroup(line, army, id);
        if g.None? {
          return None;
        }
        groups := groups + [g.value];
        id := id + 1;
      }
    }
    assert lines[|lines|..] == [];
    return Some(groups);
  }

  /** The ids run 0, 1, 2, ... in the order of the groups. */
  lemma {:induction false} IdsInOrder(lines: seq<string>, army: Army, id: nat, acc: seq<Group>)
    requires id == |acc| && forall k :: 0 <= k < |acc| ==> acc[k].id == k
    requires ParseFrom(lines, army, id, acc).Some?
    ensures var gs := ParseFrom(lines, army, id, acc).value;
            forall k :: 0 <= k < |gs| ==> gs[k].id == k
    decreases |lines|
  {
    if lines != [] {
      var line := lines[0];
      if !IsGroupLine(line) {
        IdsInOrder(lines[1..], ArmyAfter(line, army), id, acc);
      } else {
        var g := GroupOf(line, army, id).value;
        var acc' := acc + [g];
        assert forall k :: 0 <= k < |acc'| ==> acc'[k].id == k;
        IdsInOrder(lines[1..], army, id + 1, acc');
      }
    }
  }

  /** Before any "Infection:" header every group belongs to the immune
      system. */
  lemma {:induction false} ImmuneUntilHeader(lines: seq<string>, id: nat, acc: seq<Group>)
    requires forall k :: 0 <= k < |acc| ==> acc[k].army == ImmuneSystem
    requires forall k :: 0 <= k < |lines| ==> !(InfectionHeader <= lines[k])
    requires ParseFrom(lines, ImmuneSystem, id, acc).Some?
    ensures forall g :: g in ParseFrom(lines, ImmuneSystem, id, acc).value ==> g.army == ImmuneSystem
    decreases |lines|
  {
    if lines != [] {
      var line := lines[0];
      assert forall k :: 0 <= k < |lines[1..]| ==> lines[1..][k] == lines[k + 1];
      if !IsGroupLine(line) {
        assert ArmyAfter(line, ImmuneSystem) == ImmuneSystem;
        ImmuneUntilHeader(lines[1..], id, acc);
      } else {
        var g := GroupOf(line, ImmuneSystem, id).value;
        ImmuneUntilHeader(lines[1..], id + 1, acc + [g]);
      }
    } else {
      assert forall g :: g in acc ==> g.army == ImmuneSystem;
    }
  }
}
