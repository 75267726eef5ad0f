/** The rules engine of Game.cs: the state of a game as the arrays the program keeps, the
    legal-move mask SetValidMoves computes, and Move.  Each inner loop of the two methods is
    a read-only helper method here, proved against the predicates of module Rules. */
module Engine {
  import opened Rules

  /** The neighbour scan of candidate slot i (Game.cs 475-484): the distinct labels of the
      adjacent friendly and enemy groups, and whether the final `else` was reached. */
  method ScanNeighbours(connections: seq<int>, friendly: array<int>, enemy: array<int>, i: int)
    returns (adjacentFriendly: seq<int>, adjacentEnemy: seq<int>, marked: bool)
    requires IsBoard(connections, friendly.Length) && enemy.Length == friendly.Length
    requires NonNegative(friendly[..]) && NonNegative(enemy[..]) && Disjoint(friendly[..], enemy[..])
    ensures Distinct(adjacentFriendly) && Distinct(adjacentEnemy)
    ensures forall g :: g in adjacentFriendly <==> g in AdjacentLabels(connections, friendly[..], i)
    ensures forall g :: g in adjacentEnemy <==> g in AdjacentLabels(connections, enemy[..], i)
    ensures marked <==> MarkedByScan(connections, friendly[..], enemy[..], i)
  {
    ghost var f, e := friendly[..], enemy[..];
    adjacentFriendly, adjacentEnemy, marked := [], [], false;
    for j := 0 to |connections|
      invariant Distinct(adjacentFriendly) && Distinct(adjacentEnemy)
      invariant forall g :: g in adjacentFriendly <==> g in LabelsBefore(connections, f, i, j)
      invariant forall g :: g in adjacentEnemy <==> g in LabelsBefore(connections, e, i, j)
      invariant marked == MarkedBefore(connections, f, e, i, j)
    {
      LabelsBeforeStep(connections, f, i, j);
      LabelsBeforeStep(connections, e, i, j);
      if i == connections[j] {
        var next := Partner(connections, j);
        PartnerOnBoard(connections, friendly.Length, j);
        ScanMarksCases(connections, f, e, i, j);
        if friendly[next] > 0 && friendly[next] !in adjacentFriendly {
          adjacentFriendly := adjacentFriendly + [friendly[next]];
        } else if enemy[next] > 0 && enemy[next] !in adjacentEnemy {
          adjacentEnemy := adjacentEnemy + [enemy[next]];
        } else {
          marked := true;
        }
      }
    }
    LabelsBeforeAll(connections, f, i);
    LabelsBeforeAll(connections, e, i);
    MarkedBeforeExists(connections, f, e, i, |connections|);
  }

  /** The distinct labels of the groups next to `slot` (Game.cs 539-546 and 568-575). */
  method AdjacentGroups(connections: seq<int>, labels: array<int>, slot: int) returns (adjacent: seq<int>)
    requires IsBoard(connections, labels.Length)
    ensures Distinct(adjacent)
    ensures forall g :: g in adjacent <==> g in AdjacentLabels(connections, labels[..], slot)
  {
    adjacent := [];
    for i := 0 to |connections|
      invariant Distinct(adjacent)
      invariant forall g :: g in adjacent <==> g in LabelsBefore(connections, labels[..], slot, i)
    {
      LabelsBeforeStep(connections, labels[..], slot, i);
      if connections[i] == slot {
        var next := Partner(connections, i);
        if labels[next] > 0 && labels[next] !in adjacent {
          adjacent := adjacent + [labels[next]];
        }
      }
    }
    LabelsBeforeAll(connections, labels[..], slot);
  }

  /** Whether enemy group g has no empty neighbour other than `except` (Game.cs 488-498 with
      `except` the candidate slot; 577-587 with `except` -1, as that loop excludes no slot). */
  method IsDoomed(connections: seq<int>, friendly: array<int>, enemy: array<int>, g: int, except: int)
    returns (doomed: bool)
    requires IsBoard(connections, friendly.Length) && enemy.Length == friendly.Length
    ensures doomed <==> DoomedBy(connections, friendly[..], enemy[..], g, except)
  {
    ghost var f, e := friendly[..], enemy[..];
    doomed := true;
    for k := 0 to |connections|
      invariant doomed <==> forall k' :: 0 <= k' < k && e[connections[k']] == g
                              ==> Partner(connections, k') == except || !IsEmpty(f, e, Partner(connections, k'))
    {
      if doomed && g == enemy[connections[k]] {
        var next := Partner(connections, k);
        if friendly[next] == 0 && enemy[next] == 0 && except != next {
          doomed := false;
        }
      }
    }
  }

  /** The adjacent enemy groups that a stone at i would leave without a liberty, in the
      order of `adjacentEnemy` (Game.cs 486-499). */
  method DoomedGroups(connections: seq<int>, friendly: array<int>, enemy: array<int>, i: int, adjacentEnemy: seq<int>)
    returns (doomedGroups: seq<int>)
    requires IsBoard(connections, friendly.Length) && enemy.Length == friendly.Length
    requires forall g :: g in adjacentEnemy <==> g in AdjacentLabels(connections, enemy[..], i)
    ensures forall g :: g in doomedGroups <==>
      g in AdjacentLabels(connections, enemy[..], i) && DoomedBy(connections, friendly[..], enemy[..], g, i)
    ensures |doomedGroups| > 0 <==> Captures(connections, friendly[..], enemy[..], i)
  {
    doomedGroups := [];
    for j := 0 to |adjacentEnemy|
      invariant forall g :: g in doomedGroups <==>
        g in adjacentEnemy[..j] && DoomedBy(connections, friendly[..], enemy[..], g, i)
    {
      var doomed := IsDoomed(connections, friendly, enemy, adjacentEnemy[j], i);
      assert adjacentEnemy[..j + 1] == adjacentEnemy[..j] + [adjacentEnemy[j]];
      if doomed {
        doomedGroups := doomedGroups + [adjacentEnemy[j]];
      }
    }
    assert adjacentEnemy[..|adjacentEnemy|] == adjacentEnemy;
    if |doomedGroups| > 0 {
      var g := doomedGroups[0];
      assert g in doomedGroups;
      assert g in AdjacentLabels(connections, enemy[..], i) && DoomedBy(connections, friendly[..], enemy[..], g, i);
      assert Captures(connections, friendly[..], enemy[..], i);
    }
    forall g | g in AdjacentLabels(connections, enemy[..], i) && DoomedBy(connections, friendly[..], enemy[..], g, i)
      ensures |doomedGroups| > 0
    {
      assert g in doomedGroups;
    }
  }

  /** One pass of the liberty loop for the friendly groups next to candidate i (Game.cs
      503-514): the empty neighbours, other than i, of the stones of those groups. */
  method GroupLiberties(connections: seq<int>, friendly: array<int>, enemy: array<int>, i: int, adjacentFriendly: seq<int>)
    returns (liberties: seq<int>)
    requires IsBoard(connections, friendly.Length) && enemy.Length == friendly.Length
    requires forall g :: g in adjacentFriendly <==> g in AdjacentLabels(connections, friendly[..], i)
    ensures forall y :: y in liberties ==>
      exists k :: 0 <= k < |connections| && LibertyEntry(connections, friendly[..], enemy[..], i, k) && Partner(connections, k) == y
    ensures forall k :: 0 <= k < |connections| && LibertyEntry(connections, friendly[..], enemy[..], i, k)
                ==> Partner(connections, k) in liberties
  {
    ghost var f, e := friendly[..], enemy[..];
    liberties := [];
    for k := 0 to |connections|
      invariant forall y :: y in liberties ==>
        exists k' :: 0 <= k' < k && LibertyEntry(connections, f, e, i, k') && Partner(connections, k') == y
      invariant forall k' :: 0 <= k' < k && LibertyEntry(connections, f, e, i, k') ==> Partner(connections, k') in liberties
    {
      if friendly[connections[k]] in adjacentFriendly {
        var next := Partner(connections, k);
        if friendly[next] == 0 && enemy[next] == 0 && i != next {
          liberties := liberties + [next];
          assert f[connections[k]] == friendly[connections[k]];
          assert f[connections[k]] in adjacentFriendly;
          assert f[connections[k]] in AdjacentLabels(connections, f, i);
          assert LibertyEntry(connections, f, e, i, k);
        }
      }
    }
  }

  /** The ko test of Game.cs 518-522, operator precedence included.  At j == i the first
      disjunct compares friendlyOccupied[i], which holds, with friendly[i] > 0, which does
      not, so the flag is always cleared. */
  method KoAt(i: int, friendlyOccupied: array<bool>, enemyOccupied: array<bool>,
              friendly: array<int>, enemy: array<int>, doomedGroups: seq<int>) returns (ko: bool)
    requires friendlyOccupied.Length == enemyOccupied.Length == friendly.Length == enemy.Length
    requires 0 <= i < friendly.Length && friendlyOccupied[i] && friendly[i] == 0
    ensures !ko
  {
    ko := true;
    for j := 0 to friendly.Length
      invariant j > i ==> !ko
    {
      if (ko && (friendlyOccupied[j] != (friendly[j] > 0)))
         || (enemyOccupied[j] != (enemy[j] > 0 && enemy[j] !in doomedGroups)) {
        ko := false;
      }
    }
  }

  /** Takes every stone of group g off the board (Game.cs 590-599), one prisoner each;
      `before` is the position the count of removed stones refers to. */
  method RemoveGroup(labels: array<int>, g: int, prisoners0: int, ghost before: seq<int>) returns (prisoners: int)
    requires |before| == labels.Length && g > 0
    requires forall x :: 0 <= x < labels.Length && labels[x] == g ==> before[x] > 0
    modifies labels
    ensures forall x :: 0 <= x < labels.Length ==> labels[x] == if old(labels[x]) == g then 0 else old(labels[x])
    ensures prisoners == prisoners0 + Removed(before, labels[..]) - Removed(before, old(labels[..]))
  {
    prisoners := prisoners0;
    for j := 0 to labels.Length
      invariant forall x :: 0 <= x < j ==> labels[x] == if old(labels[x]) == g then 0 else old(labels[x])
      invariant forall x :: j <= x < labels.Length ==> labels[x] == old(labels[x])
      invariant prisoners == prisoners0 + Removed(before, labels[..]) - Removed(before, old(labels[..]))
    {
      if g == labels[j] {
        RemovedClearOne(before, labels[..], j);
        labels[j] := 0;
        prisoners := prisoners + 1;
      }
    }
  }

  /** The label Move gives a stone with no friendly neighbour (Game.cs 549-557): the least
      positive label not in use. */
  method NewLabel(labels: array<int>) returns (nextIndex: int)
    ensures nextIndex > 0 && nextIndex !in labels[..]
    ensures forall l :: 0 < l < nextIndex ==> l in labels[..]
  {
    nextIndex := 1;
    var hasIndex := true;
    while hasIndex
      invariant nextIndex > 0 && forall l :: 0 < l < nextIndex ==> l in labels[..]
      invariant !hasIndex ==> nextIndex !in labels[..]
      decreases (set l | l in labels[..] && l >= nextIndex), hasIndex
    {
      ghost var present := set l | l in labels[..] && l >= nextIndex;
      hasIndex := false;
      for i := 0 to labels.Length
        invariant hasIndex <==> nextIndex in labels[..i]
      {
        if labels[i] == nextIndex {
          hasIndex := true;
        }
      }
      assert labels[..labels.Length] == labels[..];
      if hasIndex {
        nextIndex := nextIndex + 1;
        assert nextIndex - 1 in present && (set l | l in labels[..] && l >= nextIndex) < present;
      }
    }
  }

  /** The least of the adjacent friendly labels (Game.cs 562-563). */
  method MinLabel(groups: seq<int>) returns (m: int)
    requires |groups| > 0
    ensures m in groups && forall y :: y in groups ==> m <= y
  {
    m := groups[0];
    for i := 1 to |groups|
      invariant m in groups[..i] && forall y :: y in groups[..i] ==> m <= y
    {
      assert groups[..i + 1] == groups[..i] + [groups[i]];
      if groups[i] < m {
        m := groups[i];
      }
    }
    assert groups[..|groups|] == groups;
  }

  /** A new label array of n slots, all empty (C# zero-initialises `new int[n]`). */
  method NoLabels(n: nat) returns (a: array<int>)
    ensures fresh(a) && a.Length == n && forall x :: 0 <= x < n ==> a[x] == 0
  {
    a := new int[n](_ => 0);
  }

  /** A new flag array of n slots, all false (C# zero-initialises `new bool[n]`). */
  method NoStones(n: nat) returns (a: array<bool>)
    ensures fresh(a) && a.Length == n && forall x :: 0 <= x < n ==> !a[x]
  {
    a := new bool[n](_ => false);
  }

  /** The game state of Game.cs: the board, both players' labels and occupancy snapshots,
      the legal-move mask, whose turn it is and the prisoners taken. */
  class Game {
    const connections: seq<int>
    const slotCount: nat
    var player1Occupied: array?<bool>
    var player2Occupied: array?<bool>
    var player1Groups: array?<int>
    var player2Groups: array?<int>
    var validMove: array?<bool>
    var player1Turn: bool
    var player1Prisoners: int
    var player2Prisoners: int

    /** The arrays exist, have one entry per slot, are distinct objects, and the labels form
        a position. */
    ghost predicate Valid()
      reads this, player1Groups, player2Groups
    {
      && player1Occupied != null && player2Occupied != null && player1Groups != null
      && player2Groups != null && validMove != null
      && player1Occupied.Length == player2Occupied.Length == validMove.Length == slotCount
      && player1Groups.Length == player2Groups.Length == slotCount
      && player1Groups != player2Groups
      && player1Occupied != player2Occupied && validMove != player1Occupied && validMove != player2Occupied
      && Position(connections, player1Groups[..], player2Groups[..])
    }

    /** The labels of the player to move. */
    ghost function Friendly(): seq<int>
      requires Valid()
      reads this, player1Groups, player2Groups
    {
      if player1Turn then player1Groups[..] else player2Groups[..]
    }

    /** The labels of the other player. */
    ghost function Enemy(): seq<int>
      requires Valid()
      reads this, player1Groups, player2Groups
    {
      if player1Turn then player2Groups[..] else player1Groups[..]
    }

    /** The mask holds exactly the moves the rules allow the player to move. */
    ghost predicate MovesCurrent()
      requires Valid()
      reads this, player1Groups, player2Groups, validMove
    {
      forall x :: 0 <= x < slotCount ==> validMove[x] == ValidMoveAt(connections, Friendly(), Enemy(), x)
    }

    /** Awake and Start on an already built board. */
    constructor (connections: seq<int>, slotCount: nat)
      requires IsBoard(connections, slotCount)
      ensures this.connections == connections && this.slotCount == slotCount
      ensures Valid() && MovesCurrent()
      ensures player1Turn && player1Prisoners == 0 && player2Prisoners == 0
      ensures forall x :: 0 <= x < slotCount ==> player1Groups[x] == 0 && player2Groups[x] == 0
      ensures forall x :: 0 <= x < slotCount ==> !player1Occupied[x] && !player2Occupied[x]
    {
      this.connections := connections;
      this.slotCount := slotCount;
      new;
      NewGame();
    }

    /** An empty board with player 1 to move and no prisoners (Game.cs 361-378). */
    method NewGame()
      requires IsBoard(connections, slotCount)
      modifies this
      ensures Valid() && MovesCurrent()
      ensures fresh(player1Occupied) && fresh(player2Occupied) && fresh(player1Groups) && fresh(player2Groups)
      ensures fresh(validMove)
      ensures player1Turn && player1Prisoners == 0 && player2Prisoners == 0
      ensures forall x :: 0 <= x < slotCount ==> player1Groups[x] == 0 && player2Groups[x] == 0
      ensures forall x :: 0 <= x < slotCount ==> !player1Occupied[x] && !player2Occupied[x]
    {
      ClearState();
      SetValidMoves();
    }

    /** The assignments of NewGame before the mask is computed (Game.cs 366-375). */
    method ClearState()
      requires IsBoard(connections, slotCount)
      modifies this
      ensures Valid()
      ensures fresh(player1Occupied) && fresh(player2Occupied) && fresh(player1Groups) && fresh(player2Groups)
      ensures fresh(validMove)
      ensures player1Turn && player1Prisoners == 0 && player2Prisoners == 0
      ensures forall x :: 0 <= x < slotCount ==> player1Groups[x] == 0 && player2Groups[x] == 0
      ensures forall x :: 0 <= x < slotCount ==> !player1Occupied[x] && !player2Occupied[x]
    {
      var occupied1 := NoStones(slotCount);
      var occupied2 := NoStones(slotCount);
      var groups1 := NoLabels(slotCount);
      var groups2 := NoLabels(slotCount);
      var mask := NoStones(slotCount);
      EmptyPosition(connections, groups1[..], groups2[..]);
      player1Occupied, player2Occupied, player1Groups, player2Groups := occupied1, occupied2, groups1, groups2;
      player1Turn, player1Prisoners, player2Prisoners := true, 0, 0;
      validMove := mask;
    }

    /** Recomputes the legal-move mask for the player to move (Game.cs 463-527). */
    method SetValidMoves()
      requires Valid()
      modifies validMove
      ensures Valid() && Friendly() == old(Friendly()) && Enemy() == old(Enemy())
      ensures MovesCurrent()
    {
      ClearMask();
      var friendly := if player1Turn then player1Groups else player2Groups;
      var enemy := if player1Turn then player2Groups else player1Groups;
      var friendlyOccupied := if player1Turn then player1Occupied else player2Occupied;
      var enemyOccupied := if player1Turn then player2Occupied else player1Occupied;
      var ko := new bool[validMove.Length](_ => false);
      MarkCandidates(friendly, enemy, friendlyOccupied, enemyOccupied, ko);
      ApplyKo(ko);
    }

    /** The reset of the mask (Game.cs 465). */
    method ClearMask()
      requires validMove != null
      modifies validMove
      ensures forall x :: 0 <= x < validMove.Length ==> !validMove[x]
    {
      for i := 0 to validMove.Length
        invariant forall x :: 0 <= x < i ==> !validMove[x]
      {
        validMove[i] := false;
      }
    }

    /** The candidate loop of SetValidMoves (Game.cs 469-525) on a cleared mask: afterwards
        the mask holds exactly the moves the rules allow, and no ko flag is set. */
    method MarkCandidates(friendly: array<int>, enemy: array<int>,
                          friendlyOccupied: array<bool>, enemyOccupied: array<bool>, ko: array<bool>)
      requires validMove != null && IsBoard(connections, validMove.Length) && ko != validMove
      requires friendly.Length == enemy.Length == friendlyOccupied.Length == enemyOccupied.Length == validMove.Length
      requires ko.Length == validMove.Length
      requires NonNegative(friendly[..]) && NonNegative(enemy[..]) && Disjoint(friendly[..], enemy[..])
      requires forall x :: 0 <= x < validMove.Length ==> !validMove[x] && !ko[x]
      modifies validMove, ko
      ensures MaskSound(connections, friendly[..], enemy[..], validMove[..])
      ensures MaskCompleteBelow(connections, friendly[..], enemy[..], validMove[..], validMove.Length)
      ensures forall x :: 0 <= x < ko.Length ==> !ko[x]
    {
      ghost var f, e := friendly[..], enemy[..];
      for i := 0 to validMove.Length
        invariant MaskSound(connections, f, e, validMove[..])
        invariant MaskCompleteBelow(connections, f, e, validMove[..], i)
        invariant forall x :: 0 <= x < ko.Length ==> !ko[x]
      {
        if !validMove[i] && friendly[i] == 0 && enemy[i] == 0 {
          ko[i] := EvaluateCandidate(friendly, enemy, friendlyOccupied, enemyOccupied, i);
        }
      }
    }

    /** The ko mask applied last (Game.cs 526). */
    method ApplyKo(ko: array<bool>)
      requires validMove != null && ko.Length == validMove.Length && ko != validMove
      modifies validMove
      ensures forall x :: 0 <= x < validMove.Length ==> validMove[x] == (old(validMove[x]) && !ko[x])
    {
      for i := 0 to validMove.Length
        invariant forall x :: 0 <= x < i ==> validMove[x] == (old(validMove[x]) && !ko[x])
        invariant forall x :: i <= x < validMove.Length ==> validMove[x] == old(validMove[x])
      {
        validMove[i] := validMove[i] && !ko[i];
      }
    }

    /** The body of the candidate loop of SetValidMoves for an empty slot i not yet marked
        (Game.cs 473-524): marks i when the rules allow it, marks the liberties found on
        the way, and returns ko[i]. */
    method EvaluateCandidate(friendly: array<int>, enemy: array<int>,
                             friendlyOccupied: array<bool>, enemyOccupied: array<bool>, i: int) returns (ko: bool)
      requires validMove != null && IsBoard(connections, validMove.Length)
      requires friendly.Length == enemy.Length == friendlyOccupied.Length == enemyOccupied.Length == validMove.Length
      requires NonNegative(friendly[..]) && NonNegative(enemy[..]) && Disjoint(friendly[..], enemy[..])
      requires 0 <= i < validMove.Length && !validMove[i] && friendly[i] == 0 && enemy[i] == 0
      requires MaskSound(connections, friendly[..], enemy[..], validMove[..])
      requires MaskCompleteBelow(connections, friendly[..], enemy[..], validMove[..], i)
      modifies validMove
      ensures MaskSound(connections, friendly[..], enemy[..], validMove[..])
      ensures MaskCompleteBelow(connections, friendly[..], enemy[..], validMove[..], i + 1)
      ensures !ko
    {
      ghost var f, e := friendly[..], enemy[..];
      var adjacentFriendly, adjacentEnemy, marked := ScanNeighbours(connections, friendly, enemy, i);
      if marked {
        Mark(connections, f, e, i, i);
      }
      var doomedGroups := DoomedGroups(connections, friendly, enemy, i, adjacentEnemy);
      if |doomedGroups| > 0 {
        assert doomedGroups[0] in doomedGroups;
        Mark(connections, f, e, i, i);
      }
      assert Captures(connections, f, e, i) ==> validMove[i];
      forall entry | 0 <= entry < |connections| && LibertyEntry(connections, f, e, i, entry)
        ensures |adjacentFriendly| > 0
      {
        assert f[connections[entry]] in adjacentFriendly;
      }
      for j := 0 to |adjacentFriendly|
        invariant MaskSound(connections, f, e, validMove[..])
        invariant MaskCompleteBelow(connections, f, e, validMove[..], i)
        invariant marked || Captures(connections, f, e, i) ==> validMove[i]
        invariant j > 0 && ExtendsWithLiberty(connections, f, e, i) ==> validMove[i]
      {
        MarkLiberties(friendly, enemy, i, adjacentFriendly);
      }
      assert ValidMoveAt(connections, f, e, i) ==> validMove[i];
      ko := false;
      if friendlyOccupied[i] && |doomedGroups| > 0 {
        ko := KoAt(i, friendlyOccupied, enemyOccupied, friendly, enemy, doomedGroups);
      }
    }

    /** One pass of the liberty loop of Game.cs 500-516: marks i when a friendly group next
        to it keeps a liberty, and marks every such liberty. */
    method MarkLiberties(friendly: array<int>, enemy: array<int>, i: int, adjacentFriendly: seq<int>)
      requires validMove != null && IsBoard(connections, validMove.Length)
      requires friendly.Length == enemy.Length == validMove.Length
      requires 0 <= i < validMove.Length && friendly[i] == 0 && enemy[i] == 0
      requires forall g :: g in adjacentFriendly <==> g in AdjacentLabels(connections, friendly[..], i)
      requires MaskSound(connections, friendly[..], enemy[..], validMove[..])
      requires MaskCompleteBelow(connections, friendly[..], enemy[..], validMove[..], i)
      modifies validMove
      ensures MaskSound(connections, friendly[..], enemy[..], validMove[..])
      ensures MaskCompleteBelow(connections, friendly[..], enemy[..], validMove[..], i)
      ensures old(validMove[i]) ==> validMove[i]
      ensures ExtendsWithLiberty(connections, friendly[..], enemy[..], i) ==> validMove[i]
    {
      ghost var f, e := friendly[..], enemy[..];
      var liberties := GroupLiberties(connections, friendly, enemy, i, adjacentFriendly);
      forall y | y in liberties
        ensures 0 <= y < validMove.Length && ValidMoveAt(connections, f, e, y)
      {
        var entry :| 0 <= entry < |connections| && LibertyEntry(connections, f, e, i, entry)
          && Partner(connections, entry) == y;
        LibertyOfExtensionIsValid(connections, f, e, i, entry);
      }
      assert IsEmpty(f, e, i);
      if |liberties| > 0 {
        assert liberties[0] in liberties;
        ghost var entry :| 0 <= entry < |connections| && LibertyEntry(connections, f, e, i, entry)
          && Partner(connections, entry) == liberties[0];
        Mark(connections, f, e, i, i);
      }
      assert ExtendsWithLiberty(connections, f, e, i) ==> validMove[i];
      for k := 0 to |liberties|
        invariant MaskSound(connections, f, e, validMove[..])
        invariant MaskCompleteBelow(connections, f, e, validMove[..], i)
        invariant old(validMove[i]) ==> validMove[i]
        invariant ExtendsWithLiberty(connections, f, e, i) ==> validMove[i]
      {
        assert liberties[k] in liberties;
        Mark(connections, f, e, i, liberties[k]);
      }
    }

    /** Places a stone of the player to move on `slot` (Game.cs 529-620); the caller has
        checked validMove[slot] (Game.cs 415 and 453).  Occupancy is snapshotted first, the
        stone joins or starts a group, adjacent enemy groups left without a liberty are
        taken off and counted as prisoners of the mover, and the turn passes. */
    method Move(slot: int)
      requires Valid()
      requires 0 <= slot < slotCount && IsEmpty(Friendly(), Enemy(), slot)
      modifies player1Occupied, player2Occupied, player1Groups, player2Groups, validMove
      modifies this`player1Turn, this`player1Prisoners, this`player2Prisoners
      ensures Valid() && MovesCurrent()
      ensures player1Turn == !old(player1Turn)
      ensures player1Occupied[..] == Occupancy(old(player1Groups[..]))
      ensures player2Occupied[..] == Occupancy(old(player2Groups[..]))
      ensures Enemy() == Placed(connections, old(Friendly()), slot)
      ensures Friendly() == AfterCapture(connections, Enemy(), old(Enemy()), slot)
      ensures old(player1Turn) ==> player1Prisoners == old(player1Prisoners) + Removed(old(Enemy()), Friendly())
                                   && player2Prisoners == old(player2Prisoners)
      ensures !old(player1Turn) ==> player2Prisoners == old(player2Prisoners) + Removed(old(Enemy()), Friendly())
                                    && player1Prisoners == old(player1Prisoners)
    {
      SnapshotOccupancy();
      PlayStone(slot);
      SetValidMoves();
    }

    /** Move between the snapshot and the new mask (Game.cs 537-619): the stone is played on
        the mover's labels, captures are counted for the mover, and the turn passes. */
    method PlayStone(slot: int)
      requires Valid() && 0 <= slot < slotCount && IsEmpty(Friendly(), Enemy(), slot)
      modifies player1Groups, player2Groups, this`player1Turn, this`player1Prisoners, this`player2Prisoners
      ensures Valid() && player1Turn == !old(player1Turn)
      ensures Enemy() == Placed(connections, old(Friendly()), slot)
      ensures Friendly() == AfterCapture(connections, Enemy(), old(Enemy()), slot)
      ensures old(player1Turn) ==> player1Prisoners == old(player1Prisoners) + Removed(old(Enemy()), Friendly())
                                   && player2Prisoners == old(player2Prisoners)
      ensures !old(player1Turn) ==> player2Prisoners == old(player2Prisoners) + Removed(old(Enemy()), Friendly())
                                    && player1Prisoners == old(player1Prisoners)
    {
      // friendlyGroups and enemyGroups are the mover's and the opponent's arrays themselves
      if player1Turn {
        PlayFirst(slot);
      } else {
        PlaySecond(slot);
      }
    }

    /** PlayStone when the first player moves. */
    method PlayFirst(slot: int)
      requires Valid() && player1Turn && 0 <= slot < slotCount && IsEmpty(player1Groups[..], player2Groups[..], slot)
      modifies player1Groups, player2Groups, this`player1Turn, this`player1Prisoners
      ensures Valid() && !player1Turn
      ensures player1Groups[..] == Placed(connections, old(player1Groups[..]), slot)
      ensures player2Groups[..] == AfterCapture(connections, player1Groups[..], old(player2Groups[..]), slot)
      ensures player1Prisoners == old(player1Prisoners) + Removed(old(player2Groups[..]), player2Groups[..])
    {
      player1Prisoners := PlaceAndCapture(player1Groups, player2Groups, slot, player1Prisoners);
      player1Turn := false;
    }

    /** PlayStone when the second player moves. */
    method PlaySecond(slot: int)
      requires Valid() && !player1Turn && 0 <= slot < slotCount && IsEmpty(player2Groups[..], player1Groups[..], slot)
      modifies player1Groups, player2Groups, this`player1Turn, this`player2Prisoners
      ensures Valid() && player1Turn
      ensures player2Groups[..] == Placed(connections, old(player2Groups[..]), slot)
      ensures player1Groups[..] == AfterCapture(connections, player2Groups[..], old(player1Groups[..]), slot)
      ensures player2Prisoners == old(player2Prisoners) + Removed(old(player1Groups[..]), player1Groups[..])
    {
      PositionSymmetric(connections, player1Groups[..], player2Groups[..]);
      player2Prisoners := PlaceAndCapture(player2Groups, player1Groups, slot, player2Prisoners);
      PositionSymmetric(connections, player2Groups[..], player1Groups[..]);
      player1Turn := true;
    }

    /** The board half of Move (Game.cs 537-613) on the mover's and the opponent's label
        arrays: the stone is placed, adjacent groups left without a liberty are cleared, and
        the prisoners counted; the result is again a position. */
    method PlaceAndCapture(friendly: array<int>, enemy: array<int>, slot: int, prisoners0: int)
      returns (prisoners: int)
      requires friendly != enemy && Position(connections, friendly[..], enemy[..])
      requires 0 <= slot < friendly.Length && IsEmpty(friendly[..], enemy[..], slot)
      modifies friendly, enemy
      ensures friendly[..] == Placed(connections, old(friendly[..]), slot)
      ensures enemy[..] == AfterCapture(connections, friendly[..], old(enemy[..]), slot)
      ensures prisoners == prisoners0 + Removed(old(enemy[..]), enemy[..])
      ensures Position(connections, friendly[..], enemy[..])
    {
      ghost var f, e := friendly[..], enemy[..];
      PlaceStone(friendly, slot);
      assert enemy[..] == e;
      var adjacentEnemy := AdjacentGroups(connections, enemy, slot);
      prisoners := Capture(friendly, enemy, slot, adjacentEnemy, prisoners0);
      MoveKeepsPosition(connections, f, e, slot);
    }

    /** Records which slots hold a stone of each player before the move (Game.cs 531-535). */
    method SnapshotOccupancy()
      requires Valid()
      modifies player1Occupied, player2Occupied
      ensures player1Occupied[..] == Occupancy(player1Groups[..])
      ensures player2Occupied[..] == Occupancy(player2Groups[..])
    {
      for i := 0 to slotCount
        invariant forall x :: 0 <= x < i ==> player1Occupied[x] == (player1Groups[x] > 0)
        invariant forall x :: 0 <= x < i ==> player2Occupied[x] == (player2Groups[x] > 0)
      {
        player1Occupied[i] := player1Groups[i] > 0;
        player2Occupied[i] := player2Groups[i] > 0;
      }
    }

    /** The placement half of Move (Game.cs 537-566): a fresh label when no friendly group
        touches the slot, otherwise the least adjacent label, shared by every stone of the
        adjacent groups. */
    method PlaceStone(friendly: array<int>, slot: int)
      requires IsBoard(connections, friendly.Length) && 0 <= slot < friendly.Length
      modifies friendly
      ensures friendly[..] == Placed(connections, old(friendly[..]), slot)
    {
      ghost var f := friendly[..];
      var adjacentFriendly := AdjacentGroups(connections, friendly, slot);
      ghost var adjacent := AdjacentLabels(connections, f, slot);
      if |adjacentFriendly| == 0 {
        assert adjacent == {};
        var nextIndex := NewLabel(friendly);
        ghost var least := FreshLabel(f);
        assert nextIndex < least ==> nextIndex in f;
        assert least < nextIndex ==> least in f;
        friendly[slot] := nextIndex;
      } else {
        assert adjacentFriendly[0] in adjacentFriendly;
        assert adjacentFriendly[0] in adjacent;
        var minIndex := MinLabel(adjacentFriendly);
        assert minIndex == MinOf(adjacent);
        friendly[slot] := minIndex;
        for i := 0 to friendly.Length
          invariant forall x :: 0 <= x < i ==> friendly[x] == if x == slot || f[x] in adjacent then minIndex else f[x]
          invariant forall x :: i <= x < friendly.Length ==> friendly[x] == if x == slot then minIndex else f[x]
        {
          if friendly[i] in adjacentFriendly {
            friendly[i] := minIndex;
          }
        }
      }
    }

    /** The capture half of Move (Game.cs 567-613): every group of `adjacentEnemy` with no
        empty neighbour left is cleared, one prisoner per stone. */
    method Capture(friendly: array<int>, enemy: array<int>, slot: int, adjacentEnemy: seq<int>, prisoners0: int)
      returns (prisoners: int)
      requires IsBoard(connections, friendly.Length) && enemy.Length == friendly.Length && friendly != enemy
      requires 0 <= slot < friendly.Length
      requires NonNegative(enemy[..]) && Coherent(connections, enemy[..])
      requires Distinct(adjacentEnemy)
      requires forall g :: g in adjacentEnemy <==> g in AdjacentLabels(connections, enemy[..], slot)
      modifies enemy
      ensures enemy[..] == AfterCapture(connections, friendly[..], old(enemy[..]), slot)
      ensures prisoners == prisoners0 + Removed(old(enemy[..]), enemy[..])
    {
      ghost var e, placed := enemy[..], friendly[..];
      prisoners := prisoners0;
      ghost var removed: set<int> := {};
      RemovedNone(e);
      for i := 0 to |adjacentEnemy|
        invariant friendly[..] == placed
        invariant forall g :: g in removed <==> g in adjacentEnemy[..i] && DoomedBy(connections, placed, e, g, -1)
        invariant forall x :: 0 <= x < enemy.Length ==> enemy[x] == if e[x] in removed then 0 else e[x]
        invariant prisoners == prisoners0 + Removed(e, enemy[..])
      {
        var g := adjacentEnemy[i];
        assert g in AdjacentLabels(connections, e, slot);
        assert g > 0 && g !in adjacentEnemy[..i];
        var doomed := IsDoomed(connections, friendly, enemy, g, -1);
        DoomedUnaffectedByOtherCaptures(connections, placed, e, enemy[..], removed, g);
        if doomed {
          prisoners := RemoveGroup(enemy, g, prisoners, e);
          removed := removed + {g};
        }
        assert adjacentEnemy[..i + 1] == adjacentEnemy[..i] + [g];
      }
      assert adjacentEnemy[..|adjacentEnemy|] == adjacentEnemy;
      assert forall g :: g in removed <==> g in CapturedGroups(connections, placed, e, slot);
    }

    /** validMove[y] := true, for a slot y the rules allow. */
    method Mark(ghost connections: seq<int>, ghost f: seq<int>, ghost e: seq<int>, ghost i: int, y: int)
      requires validMove != null && IsBoard(connections, validMove.Length) && |f| == |e| == validMove.Length
      requires 0 <= i <= validMove.Length && 0 <= y < validMove.Length
      requires ValidMoveAt(connections, f, e, y)
      requires MaskSound(connections, f, e, validMove[..]) && MaskCompleteBelow(connections, f, e, validMove[..], i)
      modifies validMove
      ensures validMove[..] == old(validMove[..])[y := true]
      ensures MaskSound(connections, f, e, validMove[..]) && MaskCompleteBelow(connections, f, e, validMove[..], i)
    {
      validMove[y] := true;
    }
  }

  /** Every slot the mask marks is a legal move. */
  ghost predicate MaskSound(connections: seq<int>, f: seq<int>, e: seq<int>, mask: seq<bool>)
    requires IsBoard(connections, |f|) && |e| == |f| && |mask| == |f|
  {
    forall x :: 0 <= x < |mask| && mask[x] ==> ValidMoveAt(connections, f, e, x)
  }

  /** Every legal move below slot i is marked. */
  ghost predicate MaskCompleteBelow(connections: seq<int>, f: seq<int>, e: seq<int>, mask: seq<bool>, i: int)
    requires IsBoard(connections, |f|) && |e| == |f| && |mask| == |f| && 0 <= i <= |mask|
  {
    forall x :: 0 <= x < i && ValidMoveAt(connections, f, e, x) ==> mask[x]
  }
}
