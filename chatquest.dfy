/**
 * ChatQuest: the parts of the chat front end that compute rather than talk: the numbered NPC
 * listing shown to the player, and the location and current-town update of a move command.
 */
module ChatQuest {
  import opened Wrappers
  import opened Strings
  import opened Decimal
  import opened WorldModel

  // ---------------------------------------------------------------- the NPC listing

  /** Line i of the listing: "i. description appearance" and a newline. */
  function NpcLine(i: nat, npc: Npc): string
  {
    NatToString(i) + ". " + npc.description + " " + npc.appearance + "\n"
  }

  /** NPC line i is one line: it ends in the newline, and the text before its first '.' is the number i. */
  lemma NpcLineReadsBack(i: nat, npc: Npc)
    ensures var line := NpcLine(i, npc); |line| > 0 && line[|line| - 1] == '\n'
    ensures var line := NpcLine(i, npc);
      '\n' !in npc.description && '\n' !in npc.appearance ==> '\n' !in line[..|line| - 1]
    ensures ParseNat(Before(NpcLine(i, npc), '.')) == Some(i)
  {
    var n := NatToString(i);
    forall k | 0 <= k < |n| ensures n[k] != '.' {
      assert IsDigit(n[k]);
    }
    var rest := " " + npc.description + " " + npc.appearance + "\n";
    BeforeOfPrefix(n, rest, '.');
    assert NpcLine(i, npc) == n + ['.'] + rest;
    ParseNatToString(i);
  }

  /** The lines of `npcs`, numbered from `first` on, in list order. */
  function Lines(npcs: seq<Npc>, first: nat): (ls: seq<string>)
    ensures |ls| == |npcs|
    ensures forall i :: 0 <= i < |npcs| ==> ls[i] == NpcLine(first + i, npcs[i])
  {
    seq(|npcs|, i requires 0 <= i < |npcs| => NpcLine(first + i, npcs[i]))
  }

  /** The strings of `parts` one after the other. */
  function Concat(parts: seq<string>): string
  {
    if parts == [] then "" else Concat(parts[..|parts| - 1]) + parts[|parts| - 1]
  }

  /** Concatenation distributes over appending the lists of parts. */
  lemma {:induction false} ConcatAppend(a: seq<string>, b: seq<string>)
    ensures Concat(a + b) == Concat(a) + Concat(b)
    decreases |b|
  {
    if b == [] {
      assert a + b == a;
    } else {
      var b', last := b[..|b| - 1], b[|b| - 1];
      assert (a + b)[..|a + b| - 1] == a + b';
      ConcatAppend(a, b');
      assert Concat(a) + Concat(b') + last == Concat(a) + (Concat(b') + last);
    }
  }

  /** The listing of `npcs` numbered from `first`: its lines concatenated. */
  function NumberedLines(npcs: seq<Npc>, first: nat): string
  {
    Concat(Lines(npcs, first))
  }

  /** Listing two lists one after the other is listing their concatenation, numbering on. */
  lemma NumberedLinesAppend(xs: seq<Npc>, ys: seq<Npc>, first: nat)
    ensures NumberedLines(xs + ys, first) == NumberedLines(xs, first) + NumberedLines(ys, first + |xs|)
  {
    assert Lines(xs + ys, first) == Lines(xs, first) + Lines(ys, first + |xs|);
    ConcatAppend(Lines(xs, first), Lines(ys, first + |xs|));
  }

  /** Line k of the listing is NPC k (1-based), between the lines before it and the lines after it. */
  lemma NumberedLinesAt(npcs: seq<Npc>, k: nat)
    requires 1 <= k <= |npcs|
    ensures NumberedLines(npcs, 1) == NumberedLines(npcs[..k - 1], 1) + NpcLine(k, npcs[k - 1]) + NumberedLines(npcs[k..], k + 1)
  {
    var before, line, after := Lines(npcs[..k - 1], 1), NpcLine(k, npcs[k - 1]), Lines(npcs[k..], k + 1);
    var all := Lines(npcs, 1);
    forall i | 0 <= i < |all| ensures all[i] == (before + [line] + after)[i] {
      if i < k - 1 {
        assert npcs[..k - 1][i] == npcs[i];
      } else if i > k - 1 {
        assert npcs[k..][i - k] == npcs[i];
      }
    }
    assert all == before + [line] + after;
    ConcatAppend(before + [line], after);
    ConcatAppend(before, [line]);
    assert Concat([line]) == line by {
      assert [line][..0] == [];
    }
  }

  /** `get_npcs_text`: the number of NPCs and their numbered listing; (0, "") for no NPCs. */
  method GetNpcsText(npcs: seq<Npc>) returns (count: nat, text: string)
    ensures count == |npcs|
    ensures text == NumberedLines(npcs, 1)
    ensures npcs == [] ==> text == ""
  {
    text := "";
    count := 0;
    for i := 0 to |npcs|
      invariant count == i
      invariant text == NumberedLines(npcs[..i], 1)
    {
      count := count + 1;
      assert Lines(npcs[..i + 1], 1) == Lines(npcs[..i], 1) + [NpcLine(count, npcs[i])];
      ConcatAppend(Lines(npcs[..i], 1), [NpcLine(count, npcs[i])]);
      assert Concat([NpcLine(count, npcs[i])]) == NpcLine(count, npcs[i]) by {
        assert [NpcLine(count, npcs[i])][..0] == [];
      }
      text := text + NpcLine(count, npcs[i]);
    }
    assert npcs[..|npcs|] == npcs;
  }

  /** The NPC numbered k in the listing of the current place is the one `get_npc(k)` returns. */
  lemma ListingMatchesGetNpc(w: World, k: nat)
    requires w.GetNpcs().Ok? && 1 <= k <= |w.GetNpcs().value|
    ensures var npcs := w.GetNpcs().value;
      && w.GetNpc(k) == Ok(Some(npcs[k - 1]))
      && NumberedLines(npcs, 1) == NumberedLines(npcs[..k - 1], 1) + NpcLine(k, npcs[k - 1]) + NumberedLines(npcs[k..], k + 1)
  {
    NumberedLinesAt(w.GetNpcs().value, k);
  }

  // ---------------------------------------------------------------- moving

  datatype Direction = North | South | East | West

  function Opposite(d: Direction): Direction
  {
    match d
    case North => South
    case South => North
    case East => West
    case West => East
  }

  /** The point one step from p: North decreases y, South increases it, East increases x, West decreases it. */
  function Step(p: Point, d: Direction): (q: Point)
    ensures q != p
    ensures (q.x == p.x && (q.y == p.y - 1 || q.y == p.y + 1)) || (q.y == p.y && (q.x == p.x - 1 || q.x == p.x + 1))
  {
    match d
    case North => Point(p.x, p.y - 1)
    case South => Point(p.x, p.y + 1)
    case East => Point(p.x + 1, p.y)
    case West => Point(p.x - 1, p.y)
  }

  /** A step back the opposite way returns to the start. */
  lemma StepOpposite(p: Point, d: Direction)
    ensures Step(Step(p, d), Opposite(d)) == p
  {
  }

  /** The four directions lead to four different points. */
  lemma StepInjective(p: Point, d1: Direction, d2: Direction)
    requires Step(p, d1) == Step(p, d2)
    ensures d1 == d2
  {
  }

  /**
   * `move` up to the scene description: nothing happens unless the world has started; then the
   * location becomes the neighbouring point in direction d if `can_move` allows it and stays put
   * otherwise. Reading the location when there is none raises AttributeError, and an error of
   * `can_move` propagates; either way the world is left as it was and the error is returned.
   * Otherwise the current place is read at the (possibly new) location, its town becomes the
   * current town, and `enteredNewTown` tells whether that town differs from the previous one; an
   * error of `get_current_place` propagates after the location update, leaving the current town.
   */
  method Move(w: World, d: Direction) returns (failure: Option<Failure>, enteredNewTown: bool)
    modifies w
    ensures w.board == old(w.board) && w.placesDict == old(w.placesDict) && w.npcsDict == old(w.npcsDict)
    ensures w.towns == old(w.towns) && w.status == old(w.status)
    ensures !old(w.IsStarted()) ==>
      failure.None? && !enteredNewTown && w.location == old(w.location) && w.currentTown == old(w.currentTown)
    ensures old(w.IsStarted()) && old(w.location).None? ==>
      && failure == Some(AttributeError) && !enteredNewTown
      && w.location == old(w.location) && w.currentTown == old(w.currentTown)
    ensures old(w.IsStarted()) && old(w.location).Some? ==>
      var q := Step(old(w.location).value, d);
      && (w.CanMove(q).Err? ==>
            && failure == Some(w.CanMove(q).error) && !enteredNewTown
            && w.location == old(w.location) && w.currentTown == old(w.currentTown))
      && (w.CanMove(q) == Ok(true) ==> w.location == Some(q))
      && (w.CanMove(q) == Ok(false) ==> w.location == old(w.location))
      // after the location update the current place is read again and its town becomes the current one
      && (w.CanMove(q).Ok? && w.GetCurrentPlace().Ok? ==>
            && failure.None? && w.currentTown == Some(w.GetCurrentPlace().value.town)
            && (enteredNewTown <==> old(w.currentTown) != w.currentTown))
      && (w.CanMove(q).Ok? && w.GetCurrentPlace().Err? ==>
            failure == Some(w.GetCurrentPlace().error) && !enteredNewTown && w.currentTown == old(w.currentTown))
    ensures w.location != old(w.location) ==> w.AtPlace()
    ensures old(w.AtPlace()) ==> w.AtPlace()
  {
    enteredNewTown := false;
    if w.IsNotStarted() {
      return None, false;
    } else if w.IsCreating() {
      return None, false;
    }
    if w.location.None? {
      return Some(AttributeError), false;
    }
    var newLocation := Step(w.location.value, d);
    match w.CanMove(newLocation) {
      case Err(e) =>
        return Some(e), false;
      case Ok(ok) =>
        if ok {
          w.location := Some(newLocation);
        }
    }
    match w.GetCurrentPlace()
    case Err(e) =>
      failure := Some(e);
    case Ok(current) =>
      enteredNewTown := w.currentTown != Some(current.town);
      w.currentTown := Some(current.town);
      failure := None;
  }
}
