/** What two parts of the legal-move computation of Game.cs evidently mean, beside what they
    compute.  The Game class of module Engine keeps the code as written; the members here
    state the intended rules and prove what they promise. */
module Corrections {
  import opened Rules

  // ---------------------------------------------------------------------------------------
  // Occupancy after a move

  /** Placing a stone on empty slot s adds s to the friendly stones and changes no other
      slot's occupancy. */
  lemma PlacedOccupancy(connections: seq<int>, friendly: seq<int>, s: int)
    requires IsBoard(connections, |friendly|) && NonNegative(friendly) && 0 <= s < |friendly| && friendly[s] == 0
    ensures var r := Placed(connections, friendly, s);
      forall x :: 0 <= x < |r| ==> r[x] >= 0 && (r[x] > 0 <==> friendly[x] > 0 || x == s)
  {
    if AdjacentLabels(connections, friendly, s) == {} {
      PlacedAlone(connections, friendly, s);
    } else {
      PlacedJoining(connections, friendly, s);
      NeighbourLabelsAdjacent(connections, friendly, s);
    }
  }

  /** The groups Move captures at s are exactly the adjacent enemy groups the candidate test
      of SetValidMoves records as doomed for s: a liberty at s itself no longer counts once
      the stone is there. */
  lemma {:induction false} CapturedAreDoomed(connections: seq<int>, friendly: seq<int>, enemy: seq<int>, s: int)
    requires IsBoard(connections, |friendly|) && |enemy| == |friendly| && 0 <= s < |friendly|
    requires NonNegative(friendly) && IsEmpty(friendly, enemy, s)
    ensures forall g :: g in CapturedGroups(connections, Placed(connections, friendly, s), enemy, s)
                <==> g in AdjacentLabels(connections, enemy, s) && DoomedBy(connections, friendly, enemy, g, s)
  {
    var placed := Placed(connections, friendly, s);
    PlacedOccupancy(connections, friendly, s);
    forall g | g in AdjacentLabels(connections, enemy, s)
      ensures DoomedBy(connections, placed, enemy, g, -1) <==> DoomedBy(connections, friendly, enemy, g, s)
    {
      forall k | 0 <= k < |connections|
        ensures (Partner(connections, k) == -1 || !IsEmpty(placed, enemy, Partner(connections, k)))
            <==> (Partner(connections, k) == s || !IsEmpty(friendly, enemy, Partner(connections, k)))
      {
        PartnerOnBoard(connections, |friendly|, k);
      }
    }
  }

  // ---------------------------------------------------------------------------------------
  // Ko: the test of Game.cs 517-523 as evidently intended

  /** The snapshot agrees with the position a stone at i would leave: friendly stones where
      there are now plus i, enemy stones where there are now minus the doomed groups.  This
      is the test of Game.cs 521 with slot i counted as occupied. */
  ghost predicate RecreatesSnapshot(friendlyOccupied: seq<bool>, enemyOccupied: seq<bool>,
                                    friendly: seq<int>, enemy: seq<int>, i: int, doomedGroups: seq<int>)
    requires |friendlyOccupied| == |enemyOccupied| == |friendly| == |enemy|
  {
    forall j :: 0 <= j < |friendly| ==>
      && friendlyOccupied[j] == (friendly[j] > 0 || j == i)
      && enemyOccupied[j] == (enemy[j] > 0 && enemy[j] !in doomedGroups)
  }

  /** The ko loop with the candidate slot counted as occupied: the flag survives exactly when
      the snapshot is recreated. */
  method KoRepeats(i: int, friendlyOccupied: array<bool>, enemyOccupied: array<bool>,
                   friendly: array<int>, enemy: array<int>, doomedGroups: seq<int>) returns (ko: bool)
    requires friendlyOccupied.Length == enemyOccupied.Length == friendly.Length == enemy.Length
    ensures ko <==> RecreatesSnapshot(friendlyOccupied[..], enemyOccupied[..], friendly[..], enemy[..], i, doomedGroups)
  {
    ko := true;
    for j := 0 to friendly.Length
      invariant ko <==> forall x :: 0 <= x < j ==>
        && friendlyOccupied[x] == (friendly[x] > 0 || x == i)
        && enemyOccupied[x] == (enemy[x] > 0 && enemy[x] !in doomedGroups)
    {
      if ko && ((friendlyOccupied[j] != (friendly[j] > 0 || j == i))
                || (enemyOccupied[j] != (enemy[j] > 0 && enemy[j] !in doomedGroups))) {
        ko := false;
      }
    }
  }

  /** The intended ko test predicts the move: with the doomed groups SetValidMoves records
      for i, it holds exactly when the stone at i followed by its captures brings back the
      occupancy of the snapshot. */
  lemma {:induction false} KoTestPredictsMove(connections: seq<int>, friendly: seq<int>, enemy: seq<int>,
                                               friendlyOccupied: seq<bool>, enemyOccupied: seq<bool>,
                                               i: int, doomedGroups: seq<int>)
    requires Position(connections, friendly, enemy) && 0 <= i < |friendly| && IsEmpty(friendly, enemy, i)
    requires |friendlyOccupied| == |enemyOccupied| == |friendly|
    requires forall g :: g in doomedGroups <==>
      g in AdjacentLabels(connections, enemy, i) && DoomedBy(connections, friendly, enemy, g, i)
    ensures RecreatesSnapshot(friendlyOccupied, enemyOccupied, friendly, enemy, i, doomedGroups)
      <==> (var placed := Placed(connections, friendly, i);
            && Occupancy(placed) == friendlyOccupied
            && Occupancy(AfterCapture(connections, placed, enemy, i)) == enemyOccupied)
  {
    var placed := Placed(connections, friendly, i);
    var after := AfterCapture(connections, placed, enemy, i);
    PlacedOccupancy(connections, friendly, i);
    CapturedAreDoomed(connections, friendly, enemy, i);
    assert forall j :: 0 <= j < |friendly| ==> (Occupancy(placed)[j] <==> friendly[j] > 0 || j == i);
    assert forall j :: 0 <= j < |friendly| ==> (Occupancy(after)[j] <==> enemy[j] > 0 && enemy[j] !in doomedGroups);
  }

  /** A ko on the smallest board: two slots joined by one connection.  The opponent has just
      taken the stone on slot 0 by playing slot 1; replaying slot 0 would take slot 1 back
      and recreate the snapshot, yet the comparison at j == 0 as written fails. */
  lemma KoExample(connections: seq<int>, friendly: seq<int>, enemy: seq<int>,
                  friendlyOccupied: seq<bool>, enemyOccupied: seq<bool>)
    requires connections == [0, 1] && friendly == [0, 0] && enemy == [0, 1]
    requires friendlyOccupied == [true, false] && enemyOccupied == [false, false]
    ensures Position(connections, friendly, enemy)
    ensures ValidMoveAt(connections, friendly, enemy, 0)
    ensures forall g :: g in [1] <==> g in AdjacentLabels(connections, enemy, 0) && DoomedBy(connections, friendly, enemy, g, 0)
    ensures RecreatesSnapshot(friendlyOccupied, enemyOccupied, friendly, enemy, 0, [1])
    ensures friendlyOccupied[0] != (friendly[0] > 0)
  {
    KoExampleCapture(connections, friendly, enemy);
    KoExampleSnapshot(friendlyOccupied, enemyOccupied, friendly, enemy);
  }

  /** In the ko position, slot 0 is a legal move. */
  lemma KoExampleCapture(connections: seq<int>, friendly: seq<int>, enemy: seq<int>)
    requires connections == [0, 1] && friendly == [0, 0] && enemy == [0, 1]
    ensures Position(connections, friendly, enemy)
    ensures ValidMoveAt(connections, friendly, enemy, 0)
    ensures forall g :: g in [1] <==> g in AdjacentLabels(connections, enemy, 0) && DoomedBy(connections, friendly, enemy, g, 0)
  {
    KoExampleDoomed(connections, friendly, enemy);
    KoExamplePosition(connections, friendly, enemy);
    assert 1 in AdjacentLabels(connections, enemy, 0);
    assert Captures(connections, friendly, enemy, 0);
  }

  /** The ko position is a position: one stone of the opponent's, in group 1. */
  lemma KoExamplePosition(connections: seq<int>, friendly: seq<int>, enemy: seq<int>)
    requires connections == [0, 1] && friendly == [0, 0] && enemy == [0, 1]
    ensures Position(connections, friendly, enemy)
  {
    assert Partner(connections, 0) == 1 && Partner(connections, 1) == 0;
    forall x, y | 0 <= x < 2 && 0 <= y < 2 && enemy[x] > 0 && enemy[x] == enemy[y]
      ensures Linked(connections, enemy, x, y)
    {
      assert x == 1 && y == 1;
      assert StonePath(connections, enemy, 1, 1, 1, []);
    }
  }

  /** In the ko position, playing slot 0 takes exactly the group labelled 1. */
  lemma KoExampleDoomed(connections: seq<int>, friendly: seq<int>, enemy: seq<int>)
    requires connections == [0, 1] && friendly == [0, 0] && enemy == [0, 1]
    ensures IsBoard(connections, |friendly|) && |enemy| == |friendly|
    ensures AdjacentLabels(connections, enemy, 0) == {1}
    ensures DoomedBy(connections, friendly, enemy, 1, 0)
  {
    assert Partner(connections, 0) == 1 && Partner(connections, 1) == 0;
  }

  /** Playing slot 0 and taking group 1 recreates the snapshot, which has slot 0 occupied. */
  lemma KoExampleSnapshot(friendlyOccupied: seq<bool>, enemyOccupied: seq<bool>, friendly: seq<int>, enemy: seq<int>)
    requires friendly == [0, 0] && enemy == [0, 1]
    requires friendlyOccupied == [true, false] && enemyOccupied == [false, false]
    ensures RecreatesSnapshot(friendlyOccupied, enemyOccupied, friendly, enemy, 0, [1])
    ensures friendlyOccupied[0] != (friendly[0] > 0)
  {
    assert enemy[1] in [1];
    forall j | 0 <= j < 2
      ensures friendlyOccupied[j] == (friendly[j] > 0 || j == 0)
      ensures enemyOccupied[j] == (enemy[j] > 0 && enemy[j] !in [1])
    {
      assert j == 0 || j == 1;
    }
  }

  // ---------------------------------------------------------------------------------------
  // Suicide: the scan of Game.cs 475-484 as evidently intended

  /** Some neighbour of x other than x itself is empty. */
  ghost predicate HasEmptyNeighbour(connections: seq<int>, friendly: seq<int>, enemy: seq<int>, x: int)
    requires IsBoard(connections, |friendly|) && |enemy| == |friendly|
  {
    exists j :: 0 <= j < |connections| && connections[j] == x && Partner(connections, j) != x
      && IsEmpty(friendly, enemy, Partner(connections, j))
  }

  /** The legal-move rule without the repeated-label shortcut: an empty slot is playable when
      it has an empty neighbour, takes a group, or joins a group that keeps a liberty. */
  ghost predicate IntendedValidMoveAt(connections: seq<int>, friendly: seq<int>, enemy: seq<int>, x: int)
    requires IsBoard(connections, |friendly|) && |enemy| == |friendly| && 0 <= x < |friendly|
  {
    && IsEmpty(friendly, enemy, x)
    && (|| HasEmptyNeighbour(connections, friendly, enemy, x)
        || Captures(connections, friendly, enemy, x)
        || ExtendsWithLiberty(connections, friendly, enemy, x))
  }

  /** Some stone of the group of x (under `labels`) has an empty neighbour. */
  ghost predicate GroupHasLiberty(connections: seq<int>, labels: seq<int>, other: seq<int>, x: int)
    requires IsBoard(connections, |labels|) && |other| == |labels| && 0 <= x < |labels|
  {
    exists k :: 0 <= k < |connections| && labels[connections[k]] == labels[x]
      && IsEmpty(labels, other, Partner(connections, k))
  }

  /** Under the intended rule no move is suicide: after the stone is placed on x and the
      captured groups are taken off, the group of x has a liberty. */
  lemma {:induction false} IntendedMoveKeepsLiberty(connections: seq<int>, friendly: seq<int>, enemy: seq<int>, x: int)
    requires Position(connections, friendly, enemy) && 0 <= x < |friendly|
    requires IntendedValidMoveAt(connections, friendly, enemy, x)
    ensures var placed := Placed(connections, friendly, x);
      GroupHasLiberty(connections, placed, AfterCapture(connections, placed, enemy, x), x)
  {
    if HasEmptyNeighbour(connections, friendly, enemy, x) {
      StaysEmptyIsLiberty(connections, friendly, enemy, x);
    } else if Captures(connections, friendly, enemy, x) {
      CapturedNeighbourIsLiberty(connections, friendly, enemy, x);
    } else {
      KeptLibertyIsLiberty(connections, friendly, enemy, x);
    }
  }

  /** Conversely, a move whose group keeps a liberty after captures is legal under the intended
      rule: the liberty is a stone of a captured group, an old empty neighbour of x, or an old
      empty neighbour, other than x, of a friendly group x joins. */
  lemma LibertyMeansIntended(connections: seq<int>, friendly: seq<int>, enemy: seq<int>, x: int)
    requires Position(connections, friendly, enemy) && 0 <= x < |friendly| && IsEmpty(friendly, enemy, x)
    requires var placed := Placed(connections, friendly, x);
      GroupHasLiberty(connections, placed, AfterCapture(connections, placed, enemy, x), x)
    ensures IntendedValidMoveAt(connections, friendly, enemy, x)
  {
    var placed := Placed(connections, friendly, x);
    var after := AfterCapture(connections, placed, enemy, x);
    var k :| 0 <= k < |connections| && placed[connections[k]] == placed[x] && IsEmpty(placed, after, Partner(connections, k));
    PartnerOnBoard(connections, |friendly|, k);
    if enemy[Partner(connections, k)] != 0 {
      CapturedLibertyCaptures(connections, friendly, enemy, x, k);
    } else {
      EmptyLibertyIntended(connections, friendly, enemy, x, k);
    }
  }

  /** A liberty left by a captured stone means the move captures. */
  lemma CapturedLibertyCaptures(connections: seq<int>, friendly: seq<int>, enemy: seq<int>, x: int, k: int)
    requires IsBoard(connections, |friendly|) && |enemy| == |friendly| && NonNegative(friendly)
    requires 0 <= x < |friendly| && IsEmpty(friendly, enemy, x)
    requires 0 <= k < |connections| && 0 <= Partner(connections, k) < |friendly| && enemy[Partner(connections, k)] != 0
    requires var placed := Placed(connections, friendly, x);
      AfterCapture(connections, placed, enemy, x)[Partner(connections, k)] == 0
    ensures Captures(connections, friendly, enemy, x)
  {
    var placed := Placed(connections, friendly, x);
    var g := enemy[Partner(connections, k)];
    assert g in CapturedGroups(connections, placed, enemy, x);
    CapturedAreDoomed(connections, friendly, enemy, x);
    assert g in AdjacentLabels(connections, enemy, x) && DoomedBy(connections, friendly, enemy, g, x);
  }

  /** A liberty that was empty before the move is a neighbour of x or of a group x joins. */
  lemma EmptyLibertyIntended(connections: seq<int>, friendly: seq<int>, enemy: seq<int>, x: int, k: int)
    requires IsBoard(connections, |friendly|) && |enemy| == |friendly| && NonNegative(friendly)
    requires 0 <= x < |friendly| && IsEmpty(friendly, enemy, x)
    requires 0 <= k < |connections| && 0 <= Partner(connections, k) < |friendly| && enemy[Partner(connections, k)] == 0
    requires var placed := Placed(connections, friendly, x);
      placed[connections[k]] == placed[x] && placed[Partner(connections, k)] == 0
    ensures IntendedValidMoveAt(connections, friendly, enemy, x)
  {
    var placed := Placed(connections, friendly, x);
    var y, z := Partner(connections, k), connections[k];
    PlacedOccupancy(connections, friendly, x);
    assert friendly[y] == 0 && y != x;
    if z == x {
      assert HasEmptyNeighbour(connections, friendly, enemy, x);
    } else if AdjacentLabels(connections, friendly, x) == {} {
      // a stone placed alone carries a label no other stone has, so z would be x
      PlacedAlone(connections, friendly, x);
      assert false;
    } else {
      PlacedJoining(connections, friendly, x);
      assert friendly[z] in AdjacentLabels(connections, friendly, x);
      assert LibertyEntry(connections, friendly, enemy, x, k);
    }
  }

  /** On a position, the intended rule holds exactly when the move is not suicide. */
  lemma IntendedIffNotSuicide(connections: seq<int>, friendly: seq<int>, enemy: seq<int>, x: int)
    requires Position(connections, friendly, enemy) && 0 <= x < |friendly| && IsEmpty(friendly, enemy, x)
    ensures var placed := Placed(connections, friendly, x);
      (IntendedValidMoveAt(connections, friendly, enemy, x)
       <==> GroupHasLiberty(connections, placed, AfterCapture(connections, placed, enemy, x), x))
  {
    var placed := Placed(connections, friendly, x);
    if IntendedValidMoveAt(connections, friendly, enemy, x) {
      IntendedMoveKeepsLiberty(connections, friendly, enemy, x);
    }
    if GroupHasLiberty(connections, placed, AfterCapture(connections, placed, enemy, x), x) {
      LibertyMeansIntended(connections, friendly, enemy, x);
    }
  }

  /** The mask as written allows every intended move: an empty neighbour always reaches the
      final `else` of the scan, so the shortcut only adds moves (suicides among them). */
  lemma IntendedIsValid(connections: seq<int>, friendly: seq<int>, enemy: seq<int>, x: int)
    requires IsBoard(connections, |friendly|) && |enemy| == |friendly| && 0 <= x < |friendly|
    requires IntendedValidMoveAt(connections, friendly, enemy, x)
    ensures ValidMoveAt(connections, friendly, enemy, x)
  {
    if HasEmptyNeighbour(connections, friendly, enemy, x) {
      var j :| 0 <= j < |connections| && connections[j] == x && Partner(connections, j) != x
        && IsEmpty(friendly, enemy, Partner(connections, j));
      assert ScanMarks(connections, friendly, enemy, x, j);
    }
  }

  /** An empty neighbour of x other than x stays empty through the move. */
  lemma StaysEmptyIsLiberty(connections: seq<int>, friendly: seq<int>, enemy: seq<int>, x: int)
    requires Position(connections, friendly, enemy) && 0 <= x < |friendly| && IsEmpty(friendly, enemy, x)
    requires HasEmptyNeighbour(connections, friendly, enemy, x)
    ensures var placed := Placed(connections, friendly, x);
      GroupHasLiberty(connections, placed, AfterCapture(connections, placed, enemy, x), x)
  {
    var j :| 0 <= j < |connections| && connections[j] == x && Partner(connections, j) != x
      && IsEmpty(friendly, enemy, Partner(connections, j));
    var placed := Placed(connections, friendly, x);
    var after := AfterCapture(connections, placed, enemy, x);
    PlacedOccupancy(connections, friendly, x);
    PartnerOnBoard(connections, |friendly|, j);
    assert IsEmpty(placed, after, Partner(connections, j));
  }

  /** A neighbour of x in a captured group is empty after the move. */
  lemma CapturedNeighbourIsLiberty(connections: seq<int>, friendly: seq<int>, enemy: seq<int>, x: int)
    requires Position(connections, friendly, enemy) && 0 <= x < |friendly| && IsEmpty(friendly, enemy, x)
    requires Captures(connections, friendly, enemy, x)
    ensures var placed := Placed(connections, friendly, x);
      GroupHasLiberty(connections, placed, AfterCapture(connections, placed, enemy, x), x)
  {
    var g :| g in AdjacentLabels(connections, enemy, x) && DoomedBy(connections, friendly, enemy, g, x);
    var j := AdjacentLabelSource(connections, enemy, x, g);
    var placed := Placed(connections, friendly, x);
    var after := AfterCapture(connections, placed, enemy, x);
    var y := Partner(connections, j);
    PlacedOccupancy(connections, friendly, x);
    PartnerOnBoard(connections, |friendly|, j);
    CapturedAreDoomed(connections, friendly, enemy, x);
    assert enemy[y] in AdjacentLabels(connections, enemy, x);
    assert enemy[y] in CapturedGroups(connections, placed, enemy, x);
    assert IsEmpty(placed, after, y);
  }

  /** A liberty, other than x, of a friendly group next to x is a liberty of the merged
      group after the move. */
  lemma KeptLibertyIsLiberty(connections: seq<int>, friendly: seq<int>, enemy: seq<int>, x: int)
    requires Position(connections, friendly, enemy) && 0 <= x < |friendly| && IsEmpty(friendly, enemy, x)
    requires ExtendsWithLiberty(connections, friendly, enemy, x)
    ensures var placed := Placed(connections, friendly, x);
      GroupHasLiberty(connections, placed, AfterCapture(connections, placed, enemy, x), x)
  {
    var k :| 0 <= k < |connections| && LibertyEntry(connections, friendly, enemy, x, k);
    var placed := Placed(connections, friendly, x);
    var after := AfterCapture(connections, placed, enemy, x);
    PartnerOnBoard(connections, |friendly|, k);
    PlacedJoining(connections, friendly, x);
    NeighbourLabelsAdjacent(connections, friendly, x);
    assert placed[connections[k]] == placed[x];
    assert IsEmpty(placed, after, Partner(connections, k));
  }

  /** The shortcut as written marks a suicide legal.  Slots 0-1, 0-2, 1-2 and 1-3 are
      connected; the opponent holds 1 and 2 as one group, whose liberty is 3.  The scan of
      slot 0 meets that group at entry 0 and again at entry 2, and its `else` marks 0. */
  lemma SuicideMarkedValid(connections: seq<int>, friendly: seq<int>, enemy: seq<int>)
    requires connections == [0, 1, 0, 2, 1, 2, 1, 3] && friendly == [0, 0, 0, 0] && enemy == [0, 5, 5, 0]
    ensures Position(connections, friendly, enemy)
    ensures ValidMoveAt(connections, friendly, enemy, 0)
  {
    SuicideBoardPosition(connections, friendly, enemy);
    assert Partner(connections, 0) == 1 && Partner(connections, 2) == 2;
    assert 5 in LabelsBefore(connections, enemy, 0, 2);
    assert ScanMarks(connections, friendly, enemy, 0, 2);
  }

  /** The board of SuicideMarkedValid is a position: stones 1 and 2 form group 5 through
      the connection 1-2 (entries 4 and 5). */
  lemma SuicideBoardPosition(connections: seq<int>, friendly: seq<int>, enemy: seq<int>)
    requires connections == [0, 1, 0, 2, 1, 2, 1, 3] && friendly == [0, 0, 0, 0] && enemy == [0, 5, 5, 0]
    ensures Position(connections, friendly, enemy)
  {
    assert Partner(connections, 4) == 2 && Partner(connections, 5) == 1;
    forall x, y | 0 <= x < 4 && 0 <= y < 4 && enemy[x] > 0 && enemy[x] == enemy[y]
      ensures Linked(connections, enemy, x, y)
    {
      assert (x == 1 || x == 2) && (y == 1 || y == 2);
      assert [4][1..] == [] && [5][1..] == [];
      assert StonePath(connections, enemy, 5, 1, 1, []) && StonePath(connections, enemy, 5, 2, 2, []);
      if x == 1 && y == 2 {
        assert StonePath(connections, enemy, 5, 1, 2, [4]);
      } else if x == 2 && y == 1 {
        assert StonePath(connections, enemy, 5, 2, 1, [5]);
      }
    }
  }

  /** On the board of SuicideMarkedValid the stone played on 0 captures nothing, since group
      5 keeps its liberty 3, and is left with no liberty of its own. */
  lemma SuicideLeavesNoLiberty(connections: seq<int>, friendly: seq<int>, enemy: seq<int>)
    requires connections == [0, 1, 0, 2, 1, 2, 1, 3] && friendly == [0, 0, 0, 0] && enemy == [0, 5, 5, 0]
    ensures var placed := Placed(connections, friendly, 0);
      !GroupHasLiberty(connections, placed, AfterCapture(connections, placed, enemy, 0), 0)
  {
    assert Partner(connections, 0) == 1 && Partner(connections, 2) == 2 && Partner(connections, 6) == 3;
    var placed := Placed(connections, friendly, 0);
    NoLabelsNextToEmpty(connections, friendly, 0);
    PlacedAlone(connections, friendly, 0);
    assert !DoomedBy(connections, placed, enemy, 5, -1);
    var after := AfterCapture(connections, placed, enemy, 0);
    assert after == enemy;
    forall k | 0 <= k < |connections| && placed[connections[k]] == placed[0]
      ensures !IsEmpty(placed, after, Partner(connections, k))
    {
      assert k == 0 || k == 2;
    }
  }

  /** The intended rule rejects that move. */
  lemma SuicideNotIntended(connections: seq<int>, friendly: seq<int>, enemy: seq<int>)
    requires connections == [0, 1, 0, 2, 1, 2, 1, 3] && friendly == [0, 0, 0, 0] && enemy == [0, 5, 5, 0]
    ensures !IntendedValidMoveAt(connections, friendly, enemy, 0)
  {
    SuicideMarkedValid(connections, friendly, enemy);
    SuicideLeavesNoLiberty(connections, friendly, enemy);
    if IntendedValidMoveAt(connections, friendly, enemy, 0) {
      IntendedMoveKeepsLiberty(connections, friendly, enemy, 0);
    }
  }

  /** On slots that are all empty no slot has an adjacent label. */
  lemma NoLabelsNextToEmpty(connections: seq<int>, labels: seq<int>, x: int)
    requires IsBoard(connections, |labels|) && forall y :: 0 <= y < |labels| ==> labels[y] == 0
    ensures AdjacentLabels(connections, labels, x) == {}
  {
  }
}
