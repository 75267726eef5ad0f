/** The Go-like rules of Game.cs stated over value snapshots of the game arrays.

    The board is a flat list of slot pairs (`connections`): entries 2p and 2p+1 are the two
    ends of connection p.  For the player to move, `friendly` and `enemy` hold one group
    label per slot; 0 means "no stone of that player here". */
module Rules {

  /** Index of the other end of the connection one of whose ends is entry `j`. */
  function Mate(j: int): int {
    if j % 2 == 0 then j + 1 else j - 1
  }

  /** `connections` is a list of slot pairs over the slots 0 .. n-1. */
  predicate IsBoard(connections: seq<int>, n: int) {
    |connections| % 2 == 0 && forall j :: 0 <= j < |connections| ==> 0 <= connections[j] < n
  }

  /** The slot at the other end of the connection entry `j` belongs to. */
  function Partner(connections: seq<int>, j: int): int
    requires |connections| % 2 == 0 && 0 <= j < |connections|
  {
    assert 0 <= Mate(j) < |connections|;
    connections[Mate(j)]
  }

  /** The other end of a connection is a slot of the board. */
  lemma PartnerOnBoard(connections: seq<int>, n: int, j: int)
    requires IsBoard(connections, n) && 0 <= j < |connections|
    ensures 0 <= Partner(connections, j) < n
  {
  }

  /** Entry j and its mate are the two ends of one connection. */
  lemma MateSwap(connections: seq<int>, j: int)
    requires |connections| % 2 == 0 && 0 <= j < |connections|
    ensures 0 <= Mate(j) < |connections|
    ensures connections[Mate(j)] == Partner(connections, j) && Partner(connections, Mate(j)) == connections[j]
  {
  }

  /** `y` is joined to `x` by some connection. */
  ghost predicate Adjacent(connections: seq<int>, x: int, y: int)
    requires |connections| % 2 == 0
  {
    exists j :: 0 <= j < |connections| && connections[j] == x && Partner(connections, j) == y
  }

  /** No value occurs twice in `s`. */
  predicate Distinct(s: seq<int>) {
    forall a, b :: 0 <= a < b < |s| ==> s[a] != s[b]
  }

  predicate IsEmpty(friendly: seq<int>, enemy: seq<int>, x: int)
    requires 0 <= x < |friendly| && |enemy| == |friendly|
  {
    friendly[x] == 0 && enemy[x] == 0
  }

  /** The positive labels of `labels` carried by the slots adjacent to `x`. */
  ghost function AdjacentLabels(connections: seq<int>, labels: seq<int>, x: int): set<int>
    requires IsBoard(connections, |labels|)
  {
    set j | 0 <= j < |connections| && connections[j] == x && labels[Partner(connections, j)] > 0
      :: labels[Partner(connections, j)]
  }

  /** The empty board is a position. */
  lemma EmptyPosition(connections: seq<int>, p1: seq<int>, p2: seq<int>)
    requires IsBoard(connections, |p1|) && |p2| == |p1|
    requires forall x :: 0 <= x < |p1| ==> p1[x] == 0 && p2[x] == 0
    ensures Position(connections, p1, p2)
  {
  }

  // ---------------------------------------------------------------------------------------
  // Positions reachable in a game

  ghost predicate NonNegative(labels: seq<int>) {
    forall x :: 0 <= x < |labels| ==> labels[x] >= 0
  }

  /** No slot holds a stone of both players. */
  ghost predicate Disjoint(a: seq<int>, b: seq<int>)
    requires |a| == |b|
  {
    forall x :: 0 <= x < |a| ==> a[x] == 0 || b[x] == 0
  }

  /** Two connected stones of one player carry the same label. */
  ghost predicate Coherent(connections: seq<int>, labels: seq<int>)
    requires IsBoard(connections, |labels|)
  {
    forall j :: 0 <= j < |connections| && labels[connections[j]] > 0 && labels[Partner(connections, j)] > 0
      ==> labels[connections[j]] == labels[Partner(connections, j)]
  }

  /** The connection entries `path` lead from slot x to slot y over stones labelled g: each
      entry starts at the slot the one before it ends at. */
  ghost predicate StonePath(connections: seq<int>, labels: seq<int>, g: int, x: int, y: int, path: seq<int>)
    requires IsBoard(connections, |labels|)
    decreases |path|
  {
    && 0 <= x < |labels| && labels[x] == g
    && (if path == [] then x == y
        else
          && 0 <= path[0] < |connections| && connections[path[0]] == x
          && StonePath(connections, labels, g, Partner(connections, path[0]), y, path[1..]))
  }

  /** Slot y is reached from slot x over stones carrying the label of x. */
  ghost predicate Linked(connections: seq<int>, labels: seq<int>, x: int, y: int)
    requires IsBoard(connections, |labels|) && 0 <= x < |labels|
  {
    exists path :: StonePath(connections, labels, labels[x], x, y, path)
  }

  /** Two stones of one player that carry the same label are joined through stones of that
      label: a label names one connected group, not several. */
  ghost predicate GroupsConnected(connections: seq<int>, labels: seq<int>)
    requires IsBoard(connections, |labels|)
  {
    forall x, y {:trigger Linked(connections, labels, x, y)} ::
      0 <= x < |labels| && 0 <= y < |labels| && labels[x] > 0 && labels[x] == labels[y]
      ==> Linked(connections, labels, x, y)
  }

  /** The invariant of the two label arrays of a game on board `connections`: stones of one
      player share a positive label exactly when they are joined through that player's stones. */
  ghost predicate Position(connections: seq<int>, p1: seq<int>, p2: seq<int>) {
    && IsBoard(connections, |p1|) && |p2| == |p1|
    && NonNegative(p1) && NonNegative(p2)
    && Disjoint(p1, p2)
    && Coherent(connections, p1) && Coherent(connections, p2)
    && GroupsConnected(connections, p1) && GroupsConnected(connections, p2)
  }

  /** A path to y followed by a path from y is a path. */
  lemma {:induction false} StonePathJoin(connections: seq<int>, labels: seq<int>, g: int, x: int, y: int, z: int,
                                         first: seq<int>, second: seq<int>)
    requires IsBoard(connections, |labels|)
    requires StonePath(connections, labels, g, x, y, first) && StonePath(connections, labels, g, y, z, second)
    ensures StonePath(connections, labels, g, x, z, first + second)
    decreases |first|
  {
    if first != [] {
      assert (first + second)[0] == first[0] && (first + second)[1..] == first[1..] + second;
      StonePathJoin(connections, labels, g, Partner(connections, first[0]), y, z, first[1..], second);
    } else {
      assert first + second == second;
    }
  }

  /** A path over the stones of group g stays a path once every stone of g is labelled g'. */
  lemma {:induction false} StonePathRelabel(connections: seq<int>, labels: seq<int>, relabelled: seq<int>,
                                            g: int, g': int, x: int, y: int, path: seq<int>)
    requires IsBoard(connections, |labels|) && |relabelled| == |labels|
    requires forall z :: 0 <= z < |labels| && labels[z] == g ==> relabelled[z] == g'
    requires StonePath(connections, labels, g, x, y, path)
    ensures StonePath(connections, relabelled, g', x, y, path)
    decreases |path|
  {
    if path != [] {
      StonePathRelabel(connections, labels, relabelled, g, g', Partner(connections, path[0]), y, path[1..]);
    }
  }

  /** The position invariant does not depend on which player is named first. */
  lemma PositionSymmetric(connections: seq<int>, p1: seq<int>, p2: seq<int>)
    requires Position(connections, p1, p2)
    ensures Position(connections, p2, p1)
  {
  }

  // ---------------------------------------------------------------------------------------
  // The legal-move mask (SetValidMoves)

  /** The positive labels of `labels` carried by the slots met as neighbours of `x` through
      the first `n` connection entries. */
  ghost function LabelsBefore(connections: seq<int>, labels: seq<int>, x: int, n: int): set<int>
    requires IsBoard(connections, |labels|) && 0 <= n <= |connections|
  {
    set j | 0 <= j < n && connections[j] == x && labels[Partner(connections, j)] > 0
      :: labels[Partner(connections, j)]
  }

  lemma LabelsBeforeStep(connections: seq<int>, labels: seq<int>, x: int, n: int)
    requires IsBoard(connections, |labels|) && 0 <= n < |connections|
    ensures LabelsBefore(connections, labels, x, n + 1) == LabelsBefore(connections, labels, x, n)
      + (if connections[n] == x && labels[Partner(connections, n)] > 0 then {labels[Partner(connections, n)]} else {})
  {
  }

  lemma LabelsBeforeAll(connections: seq<int>, labels: seq<int>, x: int)
    requires IsBoard(connections, |labels|)
    ensures LabelsBefore(connections, labels, x, |connections|) == AdjacentLabels(connections, labels, x)
  {
  }

  /** Entry `j` (an end at slot x) reaches a stone whose group an earlier neighbour entry of
      x already reached. */
  ghost predicate RepeatsGroup(connections: seq<int>, friendly: seq<int>, enemy: seq<int>, x: int, j: int)
    requires IsBoard(connections, |friendly|) && |enemy| == |friendly| && 0 <= j < |connections|
  {
    var y := Partner(connections, j);
    || (friendly[y] > 0 && friendly[y] in LabelsBefore(connections, friendly, x, j))
    || (enemy[y] > 0 && enemy[y] in LabelsBefore(connections, enemy, x, j))
  }

  /** The scan of candidate x falls into its final `else` at entry j: the neighbour there is
      empty, or its group was met before. */
  ghost predicate ScanMarks(connections: seq<int>, friendly: seq<int>, enemy: seq<int>, x: int, j: int)
    requires IsBoard(connections, |friendly|) && |enemy| == |friendly| && 0 <= j < |connections|
  {
    connections[j] == x
    && (IsEmpty(friendly, enemy, Partner(connections, j)) || RepeatsGroup(connections, friendly, enemy, x, j))
  }

  /** On a position, the final `else` of the scan is reached at entry j exactly when the
      neighbour there starts neither a new friendly nor a new enemy group. */
  lemma ScanMarksCases(connections: seq<int>, friendly: seq<int>, enemy: seq<int>, x: int, j: int)
    requires IsBoard(connections, |friendly|) && |enemy| == |friendly| && 0 <= j < |connections|
    requires NonNegative(friendly) && NonNegative(enemy) && Disjoint(friendly, enemy)
    requires connections[j] == x
    ensures var y := Partner(connections, j);
      ScanMarks(connections, friendly, enemy, x, j) <==>
        && !(friendly[y] > 0 && friendly[y] !in LabelsBefore(connections, friendly, x, j))
        && !(enemy[y] > 0 && enemy[y] !in LabelsBefore(connections, enemy, x, j))
  {
  }

  /** The scan reaches its final `else` at one of the entries before n. */
  ghost predicate MarkedBefore(connections: seq<int>, friendly: seq<int>, enemy: seq<int>, x: int, n: int)
    requires IsBoard(connections, |friendly|) && |enemy| == |friendly| && 0 <= n <= |connections|
  {
    n > 0 && (MarkedBefore(connections, friendly, enemy, x, n - 1) || ScanMarks(connections, friendly, enemy, x, n - 1))
  }

  /** Running the scan to the end decides MarkedByScan. */
  lemma {:induction false} MarkedBeforeExists(connections: seq<int>, friendly: seq<int>, enemy: seq<int>, x: int, n: int)
    requires IsBoard(connections, |friendly|) && |enemy| == |friendly| && 0 <= n <= |connections|
    ensures MarkedBefore(connections, friendly, enemy, x, n)
      <==> exists j :: 0 <= j < n && ScanMarks(connections, friendly, enemy, x, j)
  {
    if n > 0 {
      MarkedBeforeExists(connections, friendly, enemy, x, n - 1);
      if ScanMarks(connections, friendly, enemy, x, n - 1) {
        assert exists j :: 0 <= j < n && ScanMarks(connections, friendly, enemy, x, j);
      }
    }
  }

  /** The neighbour scan of a candidate slot falls into its final `else` at least once. */
  ghost predicate MarkedByScan(connections: seq<int>, friendly: seq<int>, enemy: seq<int>, x: int)
    requires IsBoard(connections, |friendly|) && |enemy| == |friendly|
  {
    exists j :: 0 <= j < |connections| && ScanMarks(connections, friendly, enemy, x, j)
  }

  /** No stone of enemy group `g` has an empty neighbour other than `except`
      (`except` is -1, no slot at all, when every liberty counts). */
  ghost predicate DoomedBy(connections: seq<int>, friendly: seq<int>, enemy: seq<int>, g: int, except: int)
    requires IsBoard(connections, |friendly|) && |enemy| == |friendly|
  {
    forall k :: 0 <= k < |connections| && enemy[connections[k]] == g
      ==> Partner(connections, k) == except || !IsEmpty(friendly, enemy, Partner(connections, k))
  }

  /** A stone at x would take the last liberty of an adjacent enemy group. */
  ghost predicate Captures(connections: seq<int>, friendly: seq<int>, enemy: seq<int>, x: int)
    requires IsBoard(connections, |friendly|) && |enemy| == |friendly|
  {
    exists g :: g in AdjacentLabels(connections, enemy, x) && DoomedBy(connections, friendly, enemy, g, x)
  }

  /** Entry k ends at a stone of a friendly group adjacent to x, and its other end is an
      empty slot other than x: a liberty that group keeps once x is filled. */
  ghost predicate LibertyEntry(connections: seq<int>, friendly: seq<int>, enemy: seq<int>, x: int, k: int)
    requires IsBoard(connections, |friendly|) && |enemy| == |friendly| && 0 <= k < |connections|
  {
    && friendly[connections[k]] in AdjacentLabels(connections, friendly, x)
    && IsEmpty(friendly, enemy, Partner(connections, k)) && Partner(connections, k) != x
  }

  /** Some friendly group adjacent to x has an empty neighbour other than x. */
  ghost predicate ExtendsWithLiberty(connections: seq<int>, friendly: seq<int>, enemy: seq<int>, x: int)
    requires IsBoard(connections, |friendly|) && |enemy| == |friendly|
  {
    exists k :: 0 <= k < |connections| && LibertyEntry(connections, friendly, enemy, x, k)
  }

  /** Slot x is marked in the legal-move mask of the player whose labels are `friendly`. */
  ghost predicate ValidMoveAt(connections: seq<int>, friendly: seq<int>, enemy: seq<int>, x: int)
    requires IsBoard(connections, |friendly|) && |enemy| == |friendly| && 0 <= x < |friendly|
  {
    && IsEmpty(friendly, enemy, x)
    && (|| MarkedByScan(connections, friendly, enemy, x)
        || Captures(connections, friendly, enemy, x)
        || ExtendsWithLiberty(connections, friendly, enemy, x))
  }

  /** A liberty that the scan of candidate x finds for a friendly group adjacent to x is a
      legal move itself: the order in which SetValidMoves visits slots, and its skipping of
      slots already marked, do not change the mask. */
  lemma {:induction false} LibertyOfExtensionIsValid(connections: seq<int>, friendly: seq<int>, enemy: seq<int>, x: int, k: int)
    requires IsBoard(connections, |friendly|) && |enemy| == |friendly| && 0 <= x < |friendly|
    requires IsEmpty(friendly, enemy, x)
    requires 0 <= k < |connections| && LibertyEntry(connections, friendly, enemy, x, k)
    ensures ValidMoveAt(connections, friendly, enemy, Partner(connections, k))
  {
    var y, g := Partner(connections, k), friendly[connections[k]];
    var j :| 0 <= j < |connections| && connections[j] == x && friendly[Partner(connections, j)] > 0
      && friendly[Partner(connections, j)] == g;
    // seen from y, entry Mate(k) reaches the stone connections[k] of group g
    MateSwap(connections, k);
    assert g in AdjacentLabels(connections, friendly, y);
    // and entry Mate(j) ends at the stone Partner(j) of group g, whose neighbour x is empty
    MateSwap(connections, j);
    assert LibertyEntry(connections, friendly, enemy, y, Mate(j));
  }

  // ---------------------------------------------------------------------------------------
  // Placing a stone (Move)

  /** The smallest positive label not present in `labels`. */
  function FreshLabel(labels: seq<int>): (r: int)
    ensures r > 0 && r !in labels
    ensures forall l :: 0 < l < r ==> l in labels
  {
    FreshFrom(labels, 1)
  }

  function FreshFrom(labels: seq<int>, k: int): (r: int)
    requires k > 0 && forall l :: 0 < l < k ==> l in labels
    ensures r >= k && r !in labels
    ensures forall l :: 0 < l < r ==> l in labels
    decreases set l | l in labels && l >= k
  {
    if k in labels then
      ghost var present, above := set l | l in labels && l >= k, set l | l in labels && l >= k + 1;
      assert above <= present && k in present && k !in above;
      FreshFrom(labels, k + 1)
    else k
  }

  ghost function MinOf(s: set<int>): (m: int)
    requires s != {}
    ensures m in s && forall y :: y in s ==> m <= y
  {
    assert (forall y :: y !in s) ==> s == {};
    var x :| x in s;
    if s == {x} then x
    else
      var r := MinOf(s - {x});
      assert forall y :: y in s ==> y == x || y in s - {x};
      if x <= r then x else r
  }

  /** The friendly labels after a stone is placed at s: a fresh group when no friendly group
      touches s, otherwise every touching group and s merge under the least of their labels. */
  ghost function Placed(connections: seq<int>, friendly: seq<int>, s: int): (r: seq<int>)
    requires IsBoard(connections, |friendly|) && 0 <= s < |friendly|
    ensures |r| == |friendly|
  {
    var adjacent := AdjacentLabels(connections, friendly, s);
    if adjacent == {} then friendly[s := FreshLabel(friendly)]
    else
      var m := MinOf(adjacent);
      seq(|friendly|, x requires 0 <= x < |friendly| => if x == s || friendly[x] in adjacent then m else friendly[x])
  }

  /** The enemy groups next to s left without any empty neighbour by the placement. */
  ghost function CapturedGroups(connections: seq<int>, friendly: seq<int>, enemy: seq<int>, s: int): set<int>
    requires IsBoard(connections, |friendly|) && |enemy| == |friendly| && 0 <= s < |friendly|
  {
    set g | g in AdjacentLabels(connections, enemy, s) && DoomedBy(connections, friendly, enemy, g, -1)
  }

  /** The enemy labels once the captured groups are taken off the board. */
  ghost function AfterCapture(connections: seq<int>, friendly: seq<int>, enemy: seq<int>, s: int): (r: seq<int>)
    requires IsBoard(connections, |friendly|) && |enemy| == |friendly| && 0 <= s < |friendly|
    ensures |r| == |enemy|
  {
    var captured := CapturedGroups(connections, friendly, enemy, s);
    seq(|enemy|, x requires 0 <= x < |enemy| => if enemy[x] in captured then 0 else enemy[x])
  }

  /** The occupancy snapshot of a label array: which slots hold a stone. */
  function Occupancy(labels: seq<int>): (r: seq<bool>)
    ensures |r| == |labels| && forall x :: 0 <= x < |r| ==> (r[x] <==> labels[x] > 0)
  {
    seq(|labels|, x requires 0 <= x < |labels| => labels[x] > 0)
  }

  /** The number of stones present in `before` and gone in `after`. */
  function Removed(before: seq<int>, after: seq<int>): (r: nat)
    requires |before| == |after|
    ensures r <= |before|
  {
    if |before| == 0 then 0
    else
      var n := |before| - 1;
      Removed(before[..n], after[..n]) + (if before[n] > 0 && after[n] == 0 then 1 else 0)
  }

  // ---------------------------------------------------------------------------------------
  // What a move does to the position

  /** Placing a stone on an empty slot s with no friendly neighbour: s starts a group of its
      own under an unused label and no other label changes. */
  lemma {:induction false} PlacedAlone(connections: seq<int>, friendly: seq<int>, s: int)
    requires IsBoard(connections, |friendly|) && NonNegative(friendly) && 0 <= s < |friendly| && friendly[s] == 0
    requires AdjacentLabels(connections, friendly, s) == {}
    ensures var r := Placed(connections, friendly, s);
      && r[s] > 0 && r[s] !in friendly
      && (forall x :: 0 <= x < |r| && x != s ==> r[x] == friendly[x])
      && (forall j :: 0 <= j < |connections| && connections[j] == s ==> friendly[Partner(connections, j)] == 0)
  {
    NeighbourLabelsAdjacent(connections, friendly, s);
  }

  /** Every adjacent label is carried by a neighbour of x. */
  lemma AdjacentLabelSource(connections: seq<int>, labels: seq<int>, x: int, g: int) returns (j: int)
    requires IsBoard(connections, |labels|) && g in AdjacentLabels(connections, labels, x)
    ensures 0 <= j < |connections| && connections[j] == x && labels[Partner(connections, j)] == g && g > 0
  {
    j :| 0 <= j < |connections| && connections[j] == x && labels[Partner(connections, j)] > 0
      && labels[Partner(connections, j)] == g;
  }

  /** Every positive label on a neighbour of x is one of x's adjacent labels. */
  lemma NeighbourLabelsAdjacent(connections: seq<int>, labels: seq<int>, x: int)
    requires IsBoard(connections, |labels|)
    ensures forall j :: 0 <= j < |connections| && connections[j] == x && labels[Partner(connections, j)] > 0
                ==> labels[Partner(connections, j)] in AdjacentLabels(connections, labels, x)
  {
  }

  /** Placing a stone on an empty slot s next to friendly groups: s and every stone of those
      groups take the least of their labels; no stone appears or disappears elsewhere, and
      stones that shared a label still do. */
  lemma {:induction false} PlacedJoining(connections: seq<int>, friendly: seq<int>, s: int)
    requires IsBoard(connections, |friendly|) && NonNegative(friendly) && 0 <= s < |friendly| && friendly[s] == 0
    requires AdjacentLabels(connections, friendly, s) != {}
    ensures var r, adjacent := Placed(connections, friendly, s), AdjacentLabels(connections, friendly, s);
      && |r| == |friendly| && r[s] > 0
      && (forall x :: 0 <= x < |friendly| && x != s ==> r[x] >= 0 && (r[x] > 0 <==> friendly[x] > 0))
      && (forall x, y :: 0 <= x < |friendly| && 0 <= y < |friendly| && friendly[x] > 0 && friendly[x] == friendly[y] ==> r[x] == r[y])
      && (forall x :: 0 <= x < |friendly| && friendly[x] in adjacent ==> r[x] == r[s])
      && (forall x :: 0 <= x < |friendly| && x != s && friendly[x] !in adjacent ==> r[x] == friendly[x])
  {
    var adjacent := AdjacentLabels(connections, friendly, s);
    var m := MinOf(adjacent);
    var r := Placed(connections, friendly, s);
    assert forall x :: 0 <= x < |r| ==> r[x] == if x == s || friendly[x] in adjacent then m else friendly[x];
    assert 0 !in adjacent && m > 0;
  }


  /** Placing a stone on an empty slot keeps connected friendly stones under one label. */
  lemma {:induction false} PlacedCoherent(connections: seq<int>, friendly: seq<int>, s: int)
    requires IsBoard(connections, |friendly|) && NonNegative(friendly) && Coherent(connections, friendly)
    requires 0 <= s < |friendly| && friendly[s] == 0
    ensures Coherent(connections, Placed(connections, friendly, s))
  {
    var r := Placed(connections, friendly, s);
    var adjacent := AdjacentLabels(connections, friendly, s);
    if adjacent == {} {
      PlacedAlone(connections, friendly, s);
    } else {
      PlacedJoining(connections, friendly, s);
      NeighbourLabelsAdjacent(connections, friendly, s);
    }
    forall j | 0 <= j < |connections| && r[connections[j]] > 0 && r[Partner(connections, j)] > 0
      ensures r[connections[j]] == r[Partner(connections, j)]
    {
      var a, b := connections[j], Partner(connections, j);
      assert connections[Mate(j)] == b && Partner(connections, Mate(j)) == a;
      if a == s && b != s {
        assert friendly[b] > 0;
      } else if b == s && a != s {
        assert friendly[a] > 0;
      } else if a != s && b != s {
        assert friendly[a] > 0 && friendly[b] > 0;
      }
    }
  }

  /** With the labels coherent, taking other enemy groups off the board does not change
      whether group g still has a liberty: a neighbour of a stone of g that holds an enemy
      stone belongs to g itself. */
  lemma {:induction false} DoomedUnaffectedByOtherCaptures(connections: seq<int>, friendly: seq<int>, enemy: seq<int>,
                                                          current: seq<int>, taken: set<int>, g: int)
    requires IsBoard(connections, |friendly|) && |enemy| == |friendly| && |current| == |enemy|
    requires NonNegative(enemy) && Coherent(connections, enemy) && g > 0 && g !in taken
    requires forall x :: 0 <= x < |enemy| ==> current[x] == if enemy[x] in taken then 0 else enemy[x]
    ensures DoomedBy(connections, friendly, current, g, -1) <==> DoomedBy(connections, friendly, enemy, g, -1)
  {
    forall k | 0 <= k < |connections| && enemy[connections[k]] == g
      ensures current[connections[k]] == g
      ensures IsEmpty(friendly, current, Partner(connections, k)) <==> IsEmpty(friendly, enemy, Partner(connections, k))
    {
      var y := Partner(connections, k);
      assert 0 <= y < |enemy|;
      if enemy[y] > 0 {
        assert enemy[y] == g;
        assert current[y] == enemy[y];
      } else {
        assert current[y] == 0;
      }
    }
    forall k | 0 <= k < |connections| && current[connections[k]] == g
      ensures enemy[connections[k]] == g
    {
    }
  }

  /** Nothing is removed between a label array and itself. */
  lemma {:induction false} RemovedNone(labels: seq<int>)
    ensures Removed(labels, labels) == 0
  {
    if |labels| > 0 {
      RemovedNone(labels[..|labels| - 1]);
    }
  }

  /** Clearing one more stone adds exactly one to the count of removed stones. */
  lemma {:induction false} RemovedClearOne(before: seq<int>, after: seq<int>, j: int)
    requires |before| == |after| && 0 <= j < |before|
    requires before[j] > 0 && after[j] != 0
    ensures Removed(before, after[j := 0]) == Removed(before, after) + 1
  {
    var n := |before| - 1;
    var cleared := after[j := 0];
    if j == n {
      assert cleared[..n] == after[..n];
    } else {
      assert cleared[..n] == after[..n][j := 0];
      RemovedClearOne(before[..n], after[..n], j);
    }
  }

  /** Taking captured groups off leaves every enemy stone either in place or gone, and
      keeps the enemy labels non-negative and coherent. */
  lemma {:induction false} AfterCaptureKeepsLabels(connections: seq<int>, placed: seq<int>, enemy: seq<int>, s: int)
    requires IsBoard(connections, |placed|) && |enemy| == |placed| && 0 <= s < |placed|
    requires NonNegative(enemy) && Coherent(connections, enemy)
    ensures var after := AfterCapture(connections, placed, enemy, s);
      && (forall x :: 0 <= x < |after| ==> after[x] == 0 || after[x] == enemy[x])
      && NonNegative(after) && Coherent(connections, after)
  {
    var after := AfterCapture(connections, placed, enemy, s);
    assert forall x :: 0 <= x < |after| ==> after[x] == 0 || after[x] == enemy[x];
    forall j | 0 <= j < |connections| && after[connections[j]] > 0 && after[Partner(connections, j)] > 0
      ensures after[connections[j]] == after[Partner(connections, j)]
    {
      assert enemy[connections[j]] > 0 && enemy[Partner(connections, j)] > 0;
    }
  }

  /** A stone with no friendly neighbour starts a group of its own; every other label still
      names one connected group. */
  lemma PlacedAloneConnected(connections: seq<int>, friendly: seq<int>, s: int)
    requires IsBoard(connections, |friendly|) && NonNegative(friendly) && GroupsConnected(connections, friendly)
    requires 0 <= s < |friendly| && friendly[s] == 0 && AdjacentLabels(connections, friendly, s) == {}
    ensures GroupsConnected(connections, Placed(connections, friendly, s))
  {
    var r := Placed(connections, friendly, s);
    PlacedAlone(connections, friendly, s);
    forall x, y | 0 <= x < |r| && 0 <= y < |r| && r[x] > 0 && r[x] == r[y]
      ensures Linked(connections, r, x, y)
    {
      if x == s {
        assert y == s;
        assert StonePath(connections, r, r[x], x, y, []);
      } else {
        assert y != s;
        var g := friendly[x];
        assert Linked(connections, friendly, x, y);
        var path :| StonePath(connections, friendly, g, x, y, path);
        StonePathRelabel(connections, friendly, r, g, g, x, y, path);
      }
    }
  }

  /** A stone z of the group a stone on s merges is joined to s, both ways, over the merged
      label: through its old group to a neighbour of s, then across the connection to s. */
  lemma PathsThroughPlaced(connections: seq<int>, friendly: seq<int>, s: int, z: int)
    returns (toS: seq<int>, fromS: seq<int>)
    requires IsBoard(connections, |friendly|) && NonNegative(friendly) && GroupsConnected(connections, friendly)
    requires 0 <= s < |friendly| && friendly[s] == 0 && AdjacentLabels(connections, friendly, s) != {}
    requires 0 <= z < |friendly| && (z == s || friendly[z] in AdjacentLabels(connections, friendly, s))
    ensures var r := Placed(connections, friendly, s);
      StonePath(connections, r, r[s], z, s, toS) && StonePath(connections, r, r[s], s, z, fromS)
  {
    var r := Placed(connections, friendly, s);
    PlacedJoining(connections, friendly, s);
    assert StonePath(connections, r, r[s], s, s, []);
    if z == s {
      toS, fromS := [], [];
    } else {
      var g := friendly[z];
      var j := AdjacentLabelSource(connections, friendly, s, g);
      var p := Partner(connections, j);
      MateSwap(connections, j);
      assert Linked(connections, friendly, z, p) && Linked(connections, friendly, p, z);
      var zp :| StonePath(connections, friendly, g, z, p, zp);
      var pz :| StonePath(connections, friendly, g, p, z, pz);
      StonePathRelabel(connections, friendly, r, g, r[s], z, p, zp);
      StonePathRelabel(connections, friendly, r, g, r[s], p, z, pz);
      assert [Mate(j)][1..] == [] && [j][1..] == [];
      assert StonePath(connections, r, r[s], p, s, [Mate(j)]);
      assert StonePath(connections, r, r[s], s, p, [j]);
      StonePathJoin(connections, r, r[s], z, p, s, zp, [Mate(j)]);
      StonePathJoin(connections, r, r[s], s, p, z, [j], pz);
      toS, fromS := zp + [Mate(j)], [j] + pz;
    }
  }

  /** A stone joining friendly groups merges them into one connected group; every other label
      still names one connected group. */
  lemma PlacedJoiningConnected(connections: seq<int>, friendly: seq<int>, s: int)
    requires IsBoard(connections, |friendly|) && NonNegative(friendly) && GroupsConnected(connections, friendly)
    requires 0 <= s < |friendly| && friendly[s] == 0 && AdjacentLabels(connections, friendly, s) != {}
    ensures GroupsConnected(connections, Placed(connections, friendly, s))
  {
    var r := Placed(connections, friendly, s);
    forall x, y | 0 <= x < |r| && 0 <= y < |r| && r[x] > 0 && r[x] == r[y]
      ensures Linked(connections, r, x, y)
    {
      var path := JoinedPair(connections, friendly, s, x, y);
    }
  }

  /** Two stones with one label after the merge are joined: through s when both were merged,
      along their old path otherwise. */
  lemma JoinedPair(connections: seq<int>, friendly: seq<int>, s: int, x: int, y: int) returns (path: seq<int>)
    requires IsBoard(connections, |friendly|) && NonNegative(friendly) && GroupsConnected(connections, friendly)
    requires 0 <= s < |friendly| && friendly[s] == 0 && AdjacentLabels(connections, friendly, s) != {}
    requires var r := Placed(connections, friendly, s);
      0 <= x < |r| && 0 <= y < |r| && r[x] > 0 && r[x] == r[y]
    ensures var r := Placed(connections, friendly, s);
      StonePath(connections, r, r[x], x, y, path)
  {
    var r := Placed(connections, friendly, s);
    var adjacent := AdjacentLabels(connections, friendly, s);
    PlacedJoining(connections, friendly, s);
    assert r[s] == MinOf(adjacent);
    var mergedX, mergedY := x == s || friendly[x] in adjacent, y == s || friendly[y] in adjacent;
    if mergedX && mergedY {
      var xs, sx := PathsThroughPlaced(connections, friendly, s, x);
      var ys, sy := PathsThroughPlaced(connections, friendly, s, y);
      StonePathJoin(connections, r, r[s], x, s, y, xs, sy);
      path := xs + sy;
    } else if !mergedX && !mergedY {
      var g := friendly[x];
      assert Linked(connections, friendly, x, y);
      path :| StonePath(connections, friendly, g, x, y, path);
      StonePathRelabel(connections, friendly, r, g, g, x, y, path);
    } else {
      assert false;
    }
  }

  /** Taking whole groups off the board leaves every remaining label one connected group. */
  lemma AfterCaptureConnected(connections: seq<int>, placed: seq<int>, enemy: seq<int>, s: int)
    requires IsBoard(connections, |placed|) && |enemy| == |placed| && 0 <= s < |placed|
    requires GroupsConnected(connections, enemy)
    ensures GroupsConnected(connections, AfterCapture(connections, placed, enemy, s))
  {
    var after := AfterCapture(connections, placed, enemy, s);
    forall x, y | 0 <= x < |after| && 0 <= y < |after| && after[x] > 0 && after[x] == after[y]
      ensures Linked(connections, after, x, y)
    {
      var g := enemy[x];
      assert Linked(connections, enemy, x, y);
      var path :| StonePath(connections, enemy, g, x, y, path);
      StonePathRelabel(connections, enemy, after, g, g, x, y, path);
    }
  }

  /** A move on an empty slot keeps the position invariant: both label arrays stay
      non-negative, no slot holds two stones, and connected stones of one player share a
      label. */
  lemma {:induction false} MoveKeepsPosition(connections: seq<int>, friendly: seq<int>, enemy: seq<int>, s: int)
    requires Position(connections, friendly, enemy) && 0 <= s < |friendly| && IsEmpty(friendly, enemy, s)
    ensures var placed := Placed(connections, friendly, s);
      Position(connections, placed, AfterCapture(connections, placed, enemy, s))
  {
    var placed := Placed(connections, friendly, s);
    if AdjacentLabels(connections, friendly, s) == {} {
      PlacedAlone(connections, friendly, s);
    } else {
      PlacedJoining(connections, friendly, s);
      NeighbourLabelsAdjacent(connections, friendly, s);
    }
    assert forall x :: 0 <= x < |placed| && x != s ==> placed[x] >= 0 && (placed[x] > 0 <==> friendly[x] > 0);
    PlacedCoherent(connections, friendly, s);
    AfterCaptureKeepsLabels(connections, placed, enemy, s);
    if AdjacentLabels(connections, friendly, s) == {} {
      PlacedAloneConnected(connections, friendly, s);
    } else {
      PlacedJoiningConnected(connections, friendly, s);
    }
    AfterCaptureConnected(connections, placed, enemy, s);
  }
}
