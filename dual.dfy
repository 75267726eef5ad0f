/** The dual of the subdivided cube (Game.cs 196-277): every vertex of the quad mesh becomes a
    dual face whose corners are the quads around it, and every quad becomes a dual vertex, that
    is a slot of the board.  The triangle list of the quad mesh is never appended to, so the
    loops over it do nothing and are left out; face numbers are then quad numbers. */
module Dual {
  import opened Topology

  // ---------------------------------------------------------------------------------------
  // Quads listed four corners at a time

  /** The corner before entry j around its quad (Game.cs 218). */
  function PrevCorner(j: int): (k: int)
    requires 0 <= j
    ensures k / 4 == j / 4 && 0 <= k && k % 4 == (j % 4 + 3) % 4
  {
    if j % 4 == 0 then j + 3 else j - 1
  }

  /** The corner after entry j around its quad (Game.cs 219, 286). */
  function NextCorner(j: int): (k: int)
    requires 0 <= j
    ensures k / 4 == j / 4 && 0 <= k && k % 4 == (j % 4 + 1) % 4
  {
    if j % 4 < 3 then j + 1 else j - 3
  }

  /** A corner's neighbours around its quad lie in a list of whole quads. */
  lemma CornersInRange(squares: seq<int>, j: int)
    requires |squares| % 4 == 0 && 0 <= j < |squares|
    ensures PrevCorner(j) < |squares| && NextCorner(j) < |squares|
  {
    assert j / 4 < |squares| / 4;
  }

  // ---------------------------------------------------------------------------------------
  // The quads around one vertex (Game.cs 201-221)

  /** The entries j < n of the quad list that are vertex i, in list order. */
  function Incidences(squares: seq<int>, i: int, n: int): (js: seq<int>)
    requires 0 <= n <= |squares|
    ensures forall t :: 0 <= t < |js| ==> 0 <= js[t] < n && squares[js[t]] == i
    ensures forall t, u :: 0 <= t < u < |js| ==> js[t] < js[u]
  {
    if n == 0 then []
    else if squares[n - 1] == i then Incidences(squares, i, n - 1) + [n - 1]
    else Incidences(squares, i, n - 1)
  }

  /** Every entry that is vertex i is listed. */
  lemma {:induction false} IncidencesComplete(squares: seq<int>, i: int, n: int, j: int)
    requires 0 <= j < n <= |squares| && squares[j] == i
    ensures j in Incidences(squares, i, n)
  {
    if j < n - 1 {
      IncidencesComplete(squares, i, n - 1, j);
    }
  }

  /** All entries of s lie in [0, n). */
  predicate Below(s: seq<int>, n: int) {
    forall k :: 0 <= k < |s| ==> 0 <= s[k] < n
  }

  /** The quads around a vertex, and for each the corner before and after the vertex in it. */
  datatype Star = Star(adjacentFaces: seq<int>, previousPoints: seq<int>, nextPoints: seq<int>) {
    /** One corner pair per face. */
    predicate Balanced() {
      |adjacentFaces| == |previousPoints| == |nextPoints|
    }
  }

  /** The star of vertex i as far as the first n corners of the quad list show it: entry t
      comes from the t-th of those corners that is i. */
  function StarUpTo(squares: seq<int>, i: int, n: nat): (star: Star)
    requires |squares| % 4 == 0 && n <= |squares|
    ensures var js := Incidences(squares, i, n);
      |star.adjacentFaces| == |star.previousPoints| == |star.nextPoints| == |js|
      && forall t :: 0 <= t < |js| ==>
        PrevCorner(js[t]) < |squares| && NextCorner(js[t]) < |squares|
        && star.adjacentFaces[t] == js[t] / 4 && star.previousPoints[t] == squares[PrevCorner(js[t])]
        && star.nextPoints[t] == squares[NextCorner(js[t])]
  {
    if n == 0 then Star([], [], [])
    else
      var star := StarUpTo(squares, i, n - 1);
      if squares[n - 1] == i then
        CornersInRange(squares, n - 1);
        Star(star.adjacentFaces + [(n - 1) / 4], star.previousPoints + [squares[PrevCorner(n - 1)]],
             star.nextPoints + [squares[NextCorner(n - 1)]])
      else star
  }

  /** The star of vertex i. */
  function StarOf(squares: seq<int>, i: int): Star
    requires |squares| % 4 == 0
  {
    StarUpTo(squares, i, |squares|)
  }

  /** The loop of Game.cs 213-221, which collects the star of vertex i. */
  method IncidentFaces(squares: seq<int>, i: int)
    returns (adjacentFaces: seq<int>, previousPoints: seq<int>, nextPoints: seq<int>)
    requires |squares| % 4 == 0
    ensures Star(adjacentFaces, previousPoints, nextPoints) == StarOf(squares, i)
  {
    adjacentFaces, previousPoints, nextPoints := [], [], [];
    var j := 0;
    while j < |squares|
      invariant 0 <= j <= |squares|
      invariant Star(adjacentFaces, previousPoints, nextPoints) == StarUpTo(squares, i, j)
    {
      if i == squares[j] {
        CornersInRange(squares, j);
        adjacentFaces := adjacentFaces + [j / 4];
        previousPoints := previousPoints + [squares[PrevCorner(j)]];
        nextPoints := nextPoints + [squares[NextCorner(j)]];
      }
      j := j + 1;
    }
  }

  /** Every face around a vertex is a quad of the list. */
  lemma StarFacesInRange(squares: seq<int>, i: int)
    requires |squares| % 4 == 0
    ensures Below(StarOf(squares, i).adjacentFaces, |squares| / 4)
  {
  }

  // ---------------------------------------------------------------------------------------
  // Ordering the quads around a vertex (Game.cs 222-254)

  /** `order` lists each of the n quads around a vertex once, starting with the first. */
  predicate IsTour(order: seq<int>, n: int) {
    |order| == n && n > 0 && order[0] == 0
    && (forall k :: 0 <= k < n ==> 0 <= order[k] < n)
    && (forall k, l :: 0 <= k < l < n ==> order[k] != order[l])
  }

  /** Around the vertex, each quad in `order` shares a side with the next one, cyclically: the
      corner before the vertex in one is the corner after it in the next. */
  predicate Chained(previousPoints: seq<int>, nextPoints: seq<int>, order: seq<int>)
    requires |order| > 0 && forall k :: 0 <= k < |order| ==> 0 <= order[k] < |previousPoints| && order[k] < |nextPoints|
  {
    (forall k :: 0 <= k < |order| - 1 ==> previousPoints[order[k]] == nextPoints[order[k + 1]])
    && previousPoints[order[|order| - 1]] == nextPoints[order[0]]
  }

  /** The faces in the order `order` names them. */
  function InOrder(adjacentFaces: seq<int>, order: seq<int>): (faces: seq<int>)
    requires forall k :: 0 <= k < |order| ==> 0 <= order[k] < |adjacentFaces|
    ensures |faces| == |order| && forall k :: 0 <= k < |order| ==> faces[k] == adjacentFaces[order[k]]
  {
    seq(|order|, k requires 0 <= k < |order| => adjacentFaces[order[k]])
  }

  /** The dual triangle of a vertex with three quads around it (Game.cs 222-236): the quads in
      the order they go around the vertex, or nothing when they do not chain either way. */
  function DualTriangle(adjacentFaces: seq<int>, previousPoints: seq<int>, nextPoints: seq<int>): (tri: seq<int>)
    requires |adjacentFaces| == |previousPoints| == |nextPoints| == 3
    ensures tri == [] || |tri| == 3
  {
    if previousPoints[0] == nextPoints[1] && previousPoints[1] == nextPoints[2] && previousPoints[2] == nextPoints[0] then
      [adjacentFaces[0], adjacentFaces[1], adjacentFaces[2]]
    else if previousPoints[0] == nextPoints[2] && previousPoints[1] == nextPoints[0] && previousPoints[2] == nextPoints[1] then
      [adjacentFaces[0], adjacentFaces[2], adjacentFaces[1]]
    else
      []
  }

  /** The three links of a three-quad order. */
  lemma ChainedThree(previousPoints: seq<int>, nextPoints: seq<int>, order: seq<int>)
    requires |previousPoints| == |nextPoints| == 3 && IsTour(order, 3)
    ensures Chained(previousPoints, nextPoints, order) <==>
      previousPoints[order[0]] == nextPoints[order[1]] && previousPoints[order[1]] == nextPoints[order[2]]
      && previousPoints[order[2]] == nextPoints[order[0]]
  {
  }

  /** The only tours of three quads are 0 1 2 and 0 2 1. */
  lemma TourOfThree(order: seq<int>)
    requires IsTour(order, 3)
    ensures order == [0, 1, 2] || order == [0, 2, 1]
  {
    assert order[1] != order[2];
  }

  /** The dual triangle lists the quads in an order that goes around the vertex, and is empty
      exactly when no such order exists. */
  lemma DualTriangleGoesAround(adjacentFaces: seq<int>, previousPoints: seq<int>, nextPoints: seq<int>)
    requires |adjacentFaces| == |previousPoints| == |nextPoints| == 3
    ensures var tri := DualTriangle(adjacentFaces, previousPoints, nextPoints);
      (tri != [] ==> exists order :: IsTour(order, 3) && Chained(previousPoints, nextPoints, order)
                                     && tri == InOrder(adjacentFaces, order))
      && (tri == [] ==> forall order :: IsTour(order, 3) ==> !Chained(previousPoints, nextPoints, order))
  {
    var tri := DualTriangle(adjacentFaces, previousPoints, nextPoints);
    if tri == [] {
      forall order | IsTour(order, 3)
        ensures !Chained(previousPoints, nextPoints, order)
      {
        TourOfThree(order);
        ChainedThree(previousPoints, nextPoints, order);
      }
    } else if previousPoints[0] == nextPoints[1] && previousPoints[1] == nextPoints[2] && previousPoints[2] == nextPoints[0] {
      var order := [0, 1, 2];
      assert IsTour(order, 3) && Chained(previousPoints, nextPoints, order);
      assert tri == InOrder(adjacentFaces, order);
    } else {
      var order := [0, 2, 1];
      assert IsTour(order, 3) && Chained(previousPoints, nextPoints, order);
      assert tri == InOrder(adjacentFaces, order);
    }
  }

  // ---------------------------------------------------------------------------------------
  // The walk around a vertex in four quads (Game.cs 237-254)

  /** The first quad j >= from, other than `current`, whose corner after the vertex is the corner
      before it in `current`; `current` itself when there is none. */
  function FirstLink(previousPoints: seq<int>, nextPoints: seq<int>, current: int, from: int): (next: int)
    requires 0 <= current < |previousPoints| && 0 <= from <= |nextPoints|
    ensures next == current || (from <= next < |nextPoints| && next != current && previousPoints[current] == nextPoints[next])
    ensures forall j :: from <= j < |nextPoints| && j != current && (next == current || j < next) ==>
      previousPoints[current] != nextPoints[j]
    decreases |nextPoints| - from
  {
    if from == |nextPoints| then current
    else if from != current && previousPoints[current] == nextPoints[from] then from
    else FirstLink(previousPoints, nextPoints, current, from + 1)
  }

  /** The quad the walk moves to from `current`. */
  function Step(previousPoints: seq<int>, nextPoints: seq<int>, current: int): (next: int)
    requires |previousPoints| == |nextPoints| && 0 <= current < |previousPoints|
    ensures 0 <= next < |nextPoints|
  {
    FirstLink(previousPoints, nextPoints, current, 0)
  }

  /** The inner loop of Game.cs 244-251: the first match wins, later ones are ignored. */
  method NextFace(previousPoints: seq<int>, nextPoints: seq<int>, current: int) returns (next: int)
    requires |previousPoints| == |nextPoints| && 0 <= current < |previousPoints|
    ensures next == Step(previousPoints, nextPoints, current)
  {
    next := current;
    var foundNext := false;
    var j := 0;
    while j < |nextPoints|
      invariant 0 <= j <= |nextPoints|
      invariant foundNext ==> next == FirstLink(previousPoints, nextPoints, current, 0)
      invariant !foundNext ==> next == current && FirstLink(previousPoints, nextPoints, current, 0) == FirstLink(previousPoints, nextPoints, current, j)
    {
      if !foundNext && j != current && previousPoints[current] == nextPoints[j] {
        next := j;
        foundNext := true;
      }
      j := j + 1;
    }
  }

  /** Where the walk stands after t steps from quad 0. */
  function WalkState(previousPoints: seq<int>, nextPoints: seq<int>, t: nat): (current: int)
    requires |previousPoints| == |nextPoints| > 0
    ensures 0 <= current < |nextPoints|
  {
    if t == 0 then 0 else Step(previousPoints, nextPoints, WalkState(previousPoints, nextPoints, t - 1))
  }

  /** The faces of the first t quads the walk visits. */
  function WalkFaces(adjacentFaces: seq<int>, previousPoints: seq<int>, nextPoints: seq<int>, t: nat): (faces: seq<int>)
    requires |adjacentFaces| == |previousPoints| == |nextPoints| > 0
    ensures |faces| == t
    ensures forall u :: 0 <= u < t ==> faces[u] == adjacentFaces[WalkState(previousPoints, nextPoints, u)]
  {
    if t == 0 then [] else WalkFaces(adjacentFaces, previousPoints, nextPoints, t - 1) + [adjacentFaces[WalkState(previousPoints, nextPoints, t - 1)]]
  }

  /** The first t >= from, up to four, at which the walk is back at quad 0; 0 when there is none. */
  function ReturnTime(previousPoints: seq<int>, nextPoints: seq<int>, from: nat): (t: nat)
    requires |previousPoints| == |nextPoints| > 0 && 1 <= from
    ensures t == 0 || (from <= t <= 4 && WalkState(previousPoints, nextPoints, t) == 0)
    ensures forall u :: from <= u <= 4 && (t == 0 || u < t) ==> WalkState(previousPoints, nextPoints, u) != 0
    decreases 5 - from
  {
    if from > 4 then 0
    else if WalkState(previousPoints, nextPoints, from) == 0 then from
    else ReturnTime(previousPoints, nextPoints, from + 1)
  }

  /** What the do/while of Game.cs 240-253 appends: the faces up to the walk's return to quad 0,
      or Failure when it never returns and the loop would not end. */
  function QuadWalk(adjacentFaces: seq<int>, previousPoints: seq<int>, nextPoints: seq<int>): Outcome<seq<int>>
    requires |adjacentFaces| == |previousPoints| == |nextPoints| > 0
  {
    var t := ReturnTime(previousPoints, nextPoints, 1);
    if t == 0 then Failure else Success(WalkFaces(adjacentFaces, previousPoints, nextPoints, t))
  }

  /** From equal states the walk goes on in step. */
  lemma {:induction false} WalkShift(previousPoints: seq<int>, nextPoints: seq<int>, a: nat, b: nat, k: nat)
    requires |previousPoints| == |nextPoints| > 0
    requires WalkState(previousPoints, nextPoints, a) == WalkState(previousPoints, nextPoints, b)
    ensures WalkState(previousPoints, nextPoints, a + k) == WalkState(previousPoints, nextPoints, b + k)
  {
    if k > 0 {
      WalkShift(previousPoints, nextPoints, a, b, k - 1);
    }
  }

  /** Among four quads, a walk that is away from quad 0 for steps 1 to 4 stays away for good:
      states 1 to 5 take at most three values, so two of them meet and the walk cycles among
      states that are not 0. */
  lemma {:induction false} WalkNeverReturns(previousPoints: seq<int>, nextPoints: seq<int>, t: nat)
    requires |previousPoints| == |nextPoints| == 4
    requires forall u :: 1 <= u <= 4 ==> WalkState(previousPoints, nextPoints, u) != 0
    requires 1 <= t
    ensures WalkState(previousPoints, nextPoints, t) != 0
    decreases t
  {
    if t > 4 {
      var a, b := Repeat(previousPoints, nextPoints);
      // state t equals state t - (b - a), which is closer to the start but still past it
      WalkShift(previousPoints, nextPoints, a, b, t - b);
      WalkNeverReturns(previousPoints, nextPoints, a + t - b);
    }
  }

  /** Two of states 1 to 4 coincide when none of them is 0. */
  lemma Repeat(previousPoints: seq<int>, nextPoints: seq<int>) returns (a: nat, b: nat)
    requires |previousPoints| == |nextPoints| == 4
    requires forall u :: 1 <= u <= 4 ==> WalkState(previousPoints, nextPoints, u) != 0
    ensures 1 <= a < b <= 4 && WalkState(previousPoints, nextPoints, a) == WalkState(previousPoints, nextPoints, b)
  {
    var s1, s2 := WalkState(previousPoints, nextPoints, 1), WalkState(previousPoints, nextPoints, 2);
    var s3, s4 := WalkState(previousPoints, nextPoints, 3), WalkState(previousPoints, nextPoints, 4);
    if s1 == s2 { a, b := 1, 2; }
    else if s1 == s3 { a, b := 1, 3; }
    else if s1 == s4 { a, b := 1, 4; }
    else if s2 == s3 { a, b := 2, 3; }
    else if s2 == s4 { a, b := 2, 4; }
    else { a, b := 3, 4; }
  }

  /** The walk appends a list of the vertex's quads that ends where it started, or never ends. */
  lemma QuadWalkCloses(adjacentFaces: seq<int>, previousPoints: seq<int>, nextPoints: seq<int>)
    requires |adjacentFaces| == |previousPoints| == |nextPoints| == 4
    ensures match QuadWalk(adjacentFaces, previousPoints, nextPoints)
      case Success(walk) =>
        1 <= |walk| <= 4 && WalkState(previousPoints, nextPoints, |walk|) == 0
        && walk == WalkFaces(adjacentFaces, previousPoints, nextPoints, |walk|)
        && forall u :: 1 <= u < |walk| ==> WalkState(previousPoints, nextPoints, u) != 0
      case Failure =>
        forall t :: t >= 1 ==> WalkState(previousPoints, nextPoints, t) != 0
  {
    if QuadWalk(adjacentFaces, previousPoints, nextPoints).Failure? {
      forall t | t >= 1
        ensures WalkState(previousPoints, nextPoints, t) != 0
      {
        WalkNeverReturns(previousPoints, nextPoints, t);
      }
    }
  }

  /** A walk that first comes back to quad 0 after four steps visits the four quads once each,
      each sharing a side with the next one round the vertex, and the dual quad lists their
      faces in that order. */
  lemma QuadWalkGoesAround(adjacentFaces: seq<int>, previousPoints: seq<int>, nextPoints: seq<int>)
    requires |adjacentFaces| == |previousPoints| == |nextPoints| == 4
    requires ReturnTime(previousPoints, nextPoints, 1) == 4
    ensures var order := [0, WalkState(previousPoints, nextPoints, 1), WalkState(previousPoints, nextPoints, 2),
                          WalkState(previousPoints, nextPoints, 3)];
      && IsTour(order, 4) && Chained(previousPoints, nextPoints, order)
      && QuadWalk(adjacentFaces, previousPoints, nextPoints) == Success(InOrder(adjacentFaces, order))
  {
    var s1, s2 := WalkState(previousPoints, nextPoints, 1), WalkState(previousPoints, nextPoints, 2);
    var s3, s4 := WalkState(previousPoints, nextPoints, 3), WalkState(previousPoints, nextPoints, 4);
    assert s4 == 0 && s1 != 0 && s2 != 0 && s3 != 0;
    var order := [0, s1, s2, s3];
    assert s1 == Step(previousPoints, nextPoints, 0) && s2 == Step(previousPoints, nextPoints, s1);
    assert s3 == Step(previousPoints, nextPoints, s2) && s4 == Step(previousPoints, nextPoints, s3);
    assert Chained(previousPoints, nextPoints, order);
    WalkFacesInOrder(adjacentFaces, previousPoints, nextPoints, order);
  }

  /** The faces of a four-step walk are those of the quads it visits, in visiting order. */
  lemma WalkFacesInOrder(adjacentFaces: seq<int>, previousPoints: seq<int>, nextPoints: seq<int>, order: seq<int>)
    requires |adjacentFaces| == |previousPoints| == |nextPoints| == 4
    requires order == [0, WalkState(previousPoints, nextPoints, 1), WalkState(previousPoints, nextPoints, 2),
                       WalkState(previousPoints, nextPoints, 3)]
    ensures WalkFaces(adjacentFaces, previousPoints, nextPoints, 4) == InOrder(adjacentFaces, order)
  {
    var walk := WalkFaces(adjacentFaces, previousPoints, nextPoints, 4);
    forall u | 0 <= u < 4
      ensures walk[u] == InOrder(adjacentFaces, order)[u]
    {
      assert order[u] == WalkState(previousPoints, nextPoints, u);
    }
  }

  /** The do/while of Game.cs 240-253, cut off after four steps: by WalkNeverReturns a walk that
      has not come back by then never does. */
  method DualQuadWalk(adjacentFaces: seq<int>, previousPoints: seq<int>, nextPoints: seq<int>) returns (r: Outcome<seq<int>>)
    requires |adjacentFaces| == |previousPoints| == |nextPoints| == 4
    ensures r == QuadWalk(adjacentFaces, previousPoints, nextPoints)
  {
    var walk := [];
    var currentIndex := 0;
    var steps := 0;
    while steps < 4
      invariant 0 <= steps <= 4
      invariant currentIndex == WalkState(previousPoints, nextPoints, steps)
      invariant walk == WalkFaces(adjacentFaces, previousPoints, nextPoints, steps)
      invariant forall u :: 1 <= u <= steps ==> WalkState(previousPoints, nextPoints, u) != 0
    {
      walk := walk + [adjacentFaces[currentIndex]];
      currentIndex := NextFace(previousPoints, nextPoints, currentIndex);
      steps := steps + 1;
      if currentIndex == 0 {
        return Success(walk);
      }
    }
    return Failure;
  }

  // ---------------------------------------------------------------------------------------
  // The dual mesh (Game.cs 196-277)

  /** The dual faces: triangles three entries at a time, quads four at a time, each entry the
      number of a quad of the subdivided cube, which becomes a dual vertex. */
  datatype DualMesh = DualMesh(triangles: seq<int>, quads: seq<int>)

  /** What a vertex with this star contributes (Game.cs 222-254): a triangle when it lies in
      three quads, the walk around it when it lies in four, nothing otherwise; Failure when the
      walk never ends. */
  function StarDual(star: Star): Outcome<DualMesh>
    requires star.Balanced()
  {
    if |star.adjacentFaces| == 3 then
      Success(DualMesh(DualTriangle(star.adjacentFaces, star.previousPoints, star.nextPoints), []))
    else if |star.adjacentFaces| == 4 then
      match QuadWalk(star.adjacentFaces, star.previousPoints, star.nextPoints)
      case Success(walk) => Success(DualMesh([], walk))
      case Failure => Failure
    else
      Success(DualMesh([], []))
  }

  /** What each of vertices 0 to n-1 contributes. */
  function VertexDuals(squares: seq<int>, n: nat): (parts: seq<Outcome<DualMesh>>)
    requires |squares| % 4 == 0
    ensures |parts| == n && forall i :: 0 <= i < n ==> parts[i] == StarDual(StarOf(squares, i))
  {
    seq(n, i requires 0 <= i < n => StarDual(StarOf(squares, i)))
  }

  /** Appends one vertex's dual faces to those gathered so far; a failure stops everything. */
  function Append(acc: Outcome<DualMesh>, d: Outcome<DualMesh>): Outcome<DualMesh> {
    if acc.Failure? || d.Failure? then Failure
    else Success(DualMesh(acc.value.triangles + d.value.triangles, acc.value.quads + d.value.quads))
  }

  /** The first n contributions appended in vertex order. */
  function Gather(parts: seq<Outcome<DualMesh>>, n: nat): Outcome<DualMesh>
    requires n <= |parts|
  {
    if n == 0 then Success(DualMesh([], []))
    else Append(Gather(parts, n - 1), parts[n - 1])
  }

  /** Once a contribution fails, the whole extraction fails. */
  lemma {:induction false} GatherFailure(parts: seq<Outcome<DualMesh>>, m: nat, n: nat)
    requires m <= n <= |parts| && Gather(parts, m).Failure?
    ensures Gather(parts, n).Failure?
  {
    if m < n {
      GatherFailure(parts, m, n - 1);
    }
  }

  /** The case split of Game.cs 222-254 for one vertex. */
  method StarContribution(adjacentFaces: seq<int>, previousPoints: seq<int>, nextPoints: seq<int>)
    returns (r: Outcome<DualMesh>)
    requires |adjacentFaces| == |previousPoints| == |nextPoints|
    ensures r == StarDual(Star(adjacentFaces, previousPoints, nextPoints))
  {
    if |adjacentFaces| == 3 {
      r := Success(DualMesh(DualTriangle(adjacentFaces, previousPoints, nextPoints), []));
    } else if |adjacentFaces| == 4 {
      var walk := DualQuadWalk(adjacentFaces, previousPoints, nextPoints);
      if walk.Failure? {
        return Failure;
      }
      r := Success(DualMesh([], walk.value));
    } else {
      r := Success(DualMesh([], []));
    }
  }

  /** One round of the vertex loop of Game.cs 199-255: the contribution of vertex i appended to
      what the earlier vertices gave. */
  method ExtendDual(squares: seq<int>, i: nat, ghost all: seq<Outcome<DualMesh>>, dualTriangles: seq<int>, dualSquares: seq<int>)
    returns (r: Outcome<DualMesh>)
    requires |squares| % 4 == 0 && i < |all| && all[i] == StarDual(StarOf(squares, i))
    requires Gather(all, i) == Success(DualMesh(dualTriangles, dualSquares))
    ensures r == Gather(all, i + 1)
  {
    var adjacentFaces, previousPoints, nextPoints := IncidentFaces(squares, i);
    var d := StarContribution(adjacentFaces, previousPoints, nextPoints);
    if d.Failure? {
      return Failure;
    }
    r := Success(DualMesh(dualTriangles + d.value.triangles, dualSquares + d.value.quads));
  }

  /** The vertex loop of Game.cs 199-255. */
  method ExtractDual(squares: seq<int>, vertexCount: nat) returns (r: Outcome<DualMesh>)
    requires |squares| % 4 == 0
    ensures r == Gather(VertexDuals(squares, vertexCount), vertexCount)
  {
    ghost var all := VertexDuals(squares, vertexCount);
    var dualTriangles, dualSquares := [], [];
    var i := 0;
    while i < vertexCount
      invariant 0 <= i <= vertexCount
      invariant Gather(all, i) == Success(DualMesh(dualTriangles, dualSquares))
    {
      var next := ExtendDual(squares, i, all, dualTriangles, dualSquares);
      if next.Failure? {
        GatherFailure(all, i + 1, vertexCount);
        return Failure;
      }
      dualTriangles, dualSquares := next.value.triangles, next.value.quads;
      i := i + 1;
    }
    return Success(DualMesh(dualTriangles, dualSquares));
  }

  /** The dual faces of a star have its faces as corners. */
  lemma StarDualInRange(star: Star, n: int)
    requires star.Balanced() && Below(star.adjacentFaces, n) && StarDual(star).Success?
    ensures Below(StarDual(star).value.triangles, n) && Below(StarDual(star).value.quads, n)
  {
    if |star.adjacentFaces| == 3 {
      DualTriangleGoesAround(star.adjacentFaces, star.previousPoints, star.nextPoints);
    } else if |star.adjacentFaces| == 4 {
      var walk := QuadWalk(star.adjacentFaces, star.previousPoints, star.nextPoints).value;
      assert forall k :: 0 <= k < |walk| ==> walk[k] in star.adjacentFaces;
    }
  }

  /** Gathered faces have corners below n when every contribution does. */
  lemma {:induction false} GatherInRange(parts: seq<Outcome<DualMesh>>, m: nat, n: int)
    requires m <= |parts| && Gather(parts, m).Success?
    requires forall k :: 0 <= k < |parts| && parts[k].Success? ==>
      Below(parts[k].value.triangles, n) && Below(parts[k].value.quads, n)
    ensures Below(Gather(parts, m).value.triangles, n) && Below(Gather(parts, m).value.quads, n)
  {
    if m > 0 {
      GatherInRange(parts, m - 1, n);
    }
  }

  /** Every dual face corner is a quad of the list, that is a dual vertex. */
  lemma DualCornersInRange(squares: seq<int>, n: nat)
    requires |squares| % 4 == 0 && Gather(VertexDuals(squares, n), n).Success?
    ensures Below(Gather(VertexDuals(squares, n), n).value.triangles, |squares| / 4)
    ensures Below(Gather(VertexDuals(squares, n), n).value.quads, |squares| / 4)
  {
    var parts := VertexDuals(squares, n);
    forall k | 0 <= k < |parts| && parts[k].Success?
      ensures Below(parts[k].value.triangles, |squares| / 4) && Below(parts[k].value.quads, |squares| / 4)
    {
      StarFacesInRange(squares, k);
      StarDualInRange(StarOf(squares, k), |squares| / 4);
    }
    GatherInRange(parts, n, |squares| / 4);
  }

  /** The loop of Game.cs 266-274: one dual vertex per four quad corners.  (The loop over
      triangles before it sees an empty list.) */
  method DualVertexCount(squares: seq<int>) returns (count: nat)
    ensures count == |squares| / 4
  {
    count := 0;
    var i := 0;
    while i < |squares|
      invariant 0 <= i <= |squares| && count == i / 4
    {
      if i % 4 == 3 {
        count := count + 1;
      }
      i := i + 1;
    }
  }

  // ---------------------------------------------------------------------------------------
  // The connection list (Game.cs 279-295)

  /** Some side of a dual quad goes from corner a to corner b. */
  predicate Side(quads: seq<int>, a: int, b: int)
    requires |quads| % 4 == 0
  {
    exists j :: 0 <= j < |quads| && quads[j] == a && NextCorner(j) < |quads| && quads[NextCorner(j)] == b
  }

  /** The links the inner loop records for dual vertex a from the first m dual quad corners: for
      each corner that is a, the pair (a, the corner after it) when a is the smaller. */
  function LinksOf(quads: seq<int>, a: int, m: nat): seq<int>
    requires |quads| % 4 == 0 && m <= |quads|
  {
    if m == 0 then []
    else
      CornersInRange(quads, m - 1);
      var next := quads[NextCorner(m - 1)];
      LinksOf(quads, a, m - 1) + (if quads[m - 1] == a && a < next then [a, next] else [])
  }

  /** The links of dual vertices 0 to n-1, in vertex order. */
  function Links(quads: seq<int>, n: nat): seq<int>
    requires |quads| % 4 == 0
  {
    if n == 0 then [] else Links(quads, n - 1) + LinksOf(quads, n - 1, |quads|)
  }

  /** The inner loop of Game.cs 283-293 for dual vertex i. */
  method LinksFrom(quads: seq<int>, i: int) returns (links: seq<int>)
    requires |quads| % 4 == 0
    ensures links == LinksOf(quads, i, |quads|)
  {
    links := [];
    var j := 0;
    while j < |quads|
      invariant 0 <= j <= |quads| && links == LinksOf(quads, i, j)
    {
      if i == quads[j] {
        CornersInRange(quads, j);
        var next := quads[NextCorner(j)];
        if i < next {
          links := links + [i, next];
        }
      }
      j := j + 1;
    }
  }

  /** The loop of Game.cs 279-295: the connection list of the board. */
  method ExtractConnections(quads: seq<int>, vertexCount: nat) returns (connections: seq<int>)
    requires |quads| % 4 == 0
    ensures connections == Links(quads, vertexCount)
  {
    connections := [];
    var i := 0;
    while i < vertexCount
      invariant 0 <= i <= vertexCount && connections == Links(quads, i)
    {
      var links := LinksFrom(quads, i);
      connections := connections + links;
      i := i + 1;
    }
  }

  /** s is a list of pairs, each a side of a dual quad from a vertex below n to a larger one. */
  predicate SoundLinks(quads: seq<int>, n: int, s: seq<int>)
    requires |quads| % 4 == 0
  {
    |s| % 2 == 0
    && forall p :: 0 <= p < |s| && p % 2 == 0 ==> 0 <= s[p] < n && s[p] < s[p + 1] && Side(quads, s[p], s[p + 1])
  }

  /** Appending lists of pairs keeps them lists of pairs. */
  lemma SoundLinksAppend(quads: seq<int>, n: int, s: seq<int>, t: seq<int>)
    requires |quads| % 4 == 0 && SoundLinks(quads, n, s) && SoundLinks(quads, n, t)
    ensures SoundLinks(quads, n, s + t)
  {
    forall p | 0 <= p < |s + t| && p % 2 == 0
      ensures 0 <= (s + t)[p] < n && (s + t)[p] < (s + t)[p + 1] && Side(quads, (s + t)[p], (s + t)[p + 1])
    {
      if p >= |s| {
        assert (s + t)[p] == t[p - |s|] && (s + t)[p + 1] == t[p - |s| + 1];
      }
    }
  }

  /** The links recorded for vertex a are sides of dual quads leaving a towards a larger vertex. */
  lemma {:induction false} LinksOfSound(quads: seq<int>, a: int, m: nat, n: int)
    requires |quads| % 4 == 0 && m <= |quads| && 0 <= a < n
    ensures SoundLinks(quads, n, LinksOf(quads, a, m))
  {
    if m > 0 {
      LinksOfSound(quads, a, m - 1, n);
      CornersInRange(quads, m - 1);
      var next := quads[NextCorner(m - 1)];
      var step := if quads[m - 1] == a && a < next then [a, next] else [];
      assert SoundLinks(quads, n, step);
      SoundLinksAppend(quads, n, LinksOf(quads, a, m - 1), step);
    }
  }

  /** Every stored pair (a, b) is a side of a dual quad with a < b and a a dual vertex
      (Game.cs 286-291). */
  lemma {:induction false} LinksSound(quads: seq<int>, n: nat)
    requires |quads| % 4 == 0
    ensures SoundLinks(quads, n, Links(quads, n))
  {
    if n > 0 {
      LinksSound(quads, n - 1);
      LinksOfSound(quads, n - 1, |quads|, n);
      SoundLinksSlack(quads, n - 1, n, Links(quads, n - 1));
      SoundLinksAppend(quads, n, Links(quads, n - 1), LinksOf(quads, n - 1, |quads|));
    }
  }

  /** A bound on the first vertex of each pair can be relaxed. */
  lemma SoundLinksSlack(quads: seq<int>, n: int, n': int, s: seq<int>)
    requires |quads| % 4 == 0 && SoundLinks(quads, n, s) && n <= n'
    ensures SoundLinks(quads, n', s)
  {
  }

  /** s lists the pair (a, b) at an even position. */
  predicate Listed(s: seq<int>, a: int, b: int) {
    exists p :: 0 <= p < |s| - 1 && p % 2 == 0 && s[p] == a && s[p + 1] == b
  }

  /** What is listed stays listed when more is appended before or after. */
  lemma ListedAppend(s: seq<int>, t: seq<int>, a: int, b: int)
    requires |s| % 2 == 0 && (Listed(s, a, b) || Listed(t, a, b))
    ensures Listed(s + t, a, b)
  {
    if Listed(s, a, b) {
      var p :| 0 <= p < |s| - 1 && p % 2 == 0 && s[p] == a && s[p + 1] == b;
      assert (s + t)[p] == a && (s + t)[p + 1] == b;
    } else {
      var p :| 0 <= p < |t| - 1 && p % 2 == 0 && t[p] == a && t[p + 1] == b;
      assert (s + t)[|s| + p] == a && (s + t)[|s| + p + 1] == b;
    }
  }

  /** Lists of links have even length. */
  lemma {:induction false} LinksOfEven(quads: seq<int>, a: int, m: nat)
    requires |quads| % 4 == 0 && m <= |quads|
    ensures |LinksOf(quads, a, m)| % 2 == 0
  {
    if m > 0 {
      LinksOfEven(quads, a, m - 1);
    }
  }

  /** The inner loop records the side leaving corner j < m when its start is a and the smaller. */
  lemma {:induction false} LinksOfComplete(quads: seq<int>, a: int, m: nat, j: nat)
    requires |quads| % 4 == 0 && j < m <= |quads| && quads[j] == a
    requires NextCorner(j) < |quads| && a < quads[NextCorner(j)]
    ensures Listed(LinksOf(quads, a, m), a, quads[NextCorner(j)])
  {
    LinksOfEven(quads, a, m - 1);
    CornersInRange(quads, m - 1);
    var next := quads[NextCorner(m - 1)];
    var step := if quads[m - 1] == a && a < next then [a, next] else [];
    if j < m - 1 {
      LinksOfComplete(quads, a, m - 1, j);
    } else {
      assert step[0] == a && step[1] == next;
    }
    ListedAppend(LinksOf(quads, a, m - 1), step, a, quads[NextCorner(j)]);
  }

  /** Every side of a dual quad from a dual vertex a < n to a larger vertex b is a connection. */
  lemma {:induction false} LinksComplete(quads: seq<int>, n: nat, a: int, b: int)
    requires |quads| % 4 == 0 && 0 <= a < n && a < b && Side(quads, a, b)
    ensures Listed(Links(quads, n), a, b)
  {
    LinksSound(quads, n - 1);
    if a == n - 1 {
      var j :| 0 <= j < |quads| && quads[j] == a && NextCorner(j) < |quads| && quads[NextCorner(j)] == b;
      LinksOfComplete(quads, a, |quads|, j);
    } else {
      LinksComplete(quads, n - 1, a, b);
    }
    ListedAppend(Links(quads, n - 1), LinksOf(quads, n - 1, |quads|), a, b);
  }

  /** The connections only name dual vertices the quads name. */
  lemma {:induction false} LinksBelow(quads: seq<int>, n: nat, bound: int)
    requires |quads| % 4 == 0 && n <= bound && Below(quads, bound)
    ensures Below(Links(quads, n), bound)
  {
    LinksSound(quads, n);
    var s := Links(quads, n);
    forall p | 0 <= p < |s|
      ensures 0 <= s[p] < bound
    {
      var q := if p % 2 == 0 then p else p - 1;
      assert 0 <= s[q] < n && s[q] < s[q + 1] && Side(quads, s[q], s[q + 1]);
      var j :| 0 <= j < |quads| && quads[j] == s[q] && NextCorner(j) < |quads| && quads[NextCorner(j)] == s[q + 1];
    }
  }
}
