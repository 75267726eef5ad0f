/** The index bookkeeping of CreateBoard in Game.cs: a cube whose six faces are cut into
    (complexity+1)² quads each, the dual of that quad mesh, and the list of slot pairs the
    rules engine plays on.  Vertex positions are not modelled; only how many vertices are
    appended, and which indices the faces use. */
module Topology {

  datatype Outcome<T> = Success(value: T) | Failure

  /** The corners of the base cube are the vertices 0 .. 7 (Game.cs 115-116). */
  const CubeCorners: int := 8

  /** The twelve cube edges as corner pairs (Game.cs 117). */
  const CubeEdges: seq<int> := [0, 1, 0, 2, 0, 4, 1, 3, 1, 5, 2, 3, 2, 6, 3, 7, 4, 5, 4, 6, 5, 7, 6, 7]

  /** The six cube faces, four corners each in order around the face (Game.cs 118). */
  const CubeSquares: seq<int> := [0, 1, 3, 2, 0, 4, 5, 1, 0, 2, 6, 4, 1, 5, 7, 3, 2, 3, 7, 6, 4, 6, 7, 5]

  // ---------------------------------------------------------------------------------------
  // Locating the edges of a face (Game.cs 146-152)

  /** Edge pair p of the table joins corners a and b, in either order. */
  predicate Joins(edges: seq<int>, p: int, a: int, b: int)
    requires 0 <= p && 2 * p + 1 < |edges|
  {
    (a == edges[2 * p] || a == edges[2 * p + 1]) && (b == edges[2 * p] || b == edges[2 * p + 1])
  }

  /** The last of the first n edge pairs that joins a and b, or -1 when none does. */
  function LastEdge(edges: seq<int>, a: int, b: int, n: int): (p: int)
    requires 0 <= n && 2 * n <= |edges|
    ensures -1 <= p < n
    ensures p >= 0 ==> Joins(edges, p, a, b) && forall q :: p < q < n ==> !Joins(edges, q, a, b)
    ensures p == -1 ==> forall q :: 0 <= q < n ==> !Joins(edges, q, a, b)
  {
    if n == 0 then -1
    else if Joins(edges, n - 1, a, b) then n - 1
    else LastEdge(edges, a, b, n - 1)
  }

  /** The first of the `complexity` vertices appended for edge pair p, all of them after the
      cube corners and those of the earlier edges; -1 for no edge. */
  function EdgeStart(p: int, complexity: nat): int {
    if p < 0 then -1 else CubeCorners + p * complexity
  }

  /** The four corners of a face are distinct. */
  predicate DistinctCorners(v1: int, v2: int, v3: int, v4: int) {
    v1 != v2 && v1 != v3 && v1 != v4 && v2 != v3 && v2 != v4 && v3 != v4
  }

  /** The offset `j * complexity / 2` of Game.cs 148-151, j even, is pair j/2 times complexity. */
  lemma HalfOfEvenProduct(p: int, complexity: int)
    ensures 2 * p * complexity / 2 == p * complexity
  {
    assert 2 * p * complexity == 2 * (p * complexity);
  }

  /** Of distinct corners, one edge joins at most one of the four face sides, so the else-if
      chain of Game.cs 148-151 sets the side an edge joins, whatever the order of the tests. */
  lemma JoinsExclusive(edges: seq<int>, p: int, v1: int, v2: int, v3: int, v4: int)
    requires 0 <= p && 2 * p + 1 < |edges| && DistinctCorners(v1, v2, v3, v4)
    ensures Joins(edges, p, v1, v2) ==> !Joins(edges, p, v1, v4) && !Joins(edges, p, v2, v3) && !Joins(edges, p, v3, v4)
    ensures Joins(edges, p, v1, v4) ==> !Joins(edges, p, v2, v3) && !Joins(edges, p, v3, v4)
    ensures Joins(edges, p, v2, v3) ==> !Joins(edges, p, v3, v4)
  {
  }

  /** One more pair of the table: it is the last joining pair exactly when it joins. */
  lemma LastEdgeStep(edges: seq<int>, a: int, b: int, p: int)
    requires 0 <= p && 2 * p + 1 < |edges|
    ensures LastEdge(edges, a, b, p + 1) == if Joins(edges, p, a, b) then p else LastEdge(edges, a, b, p)
  {
  }

  /** The edge search of Game.cs 146-152 for face (v1, v2, v3, v4): the first appended vertex
      of edge v1-v2, v1-v4, v2-v3 and v3-v4, found by scanning the edge table. */
  method FindEdges(edges: seq<int>, complexity: nat, v1: int, v2: int, v3: int, v4: int)
    returns (e1: int, e2: int, e3: int, e4: int)
    requires |edges| % 2 == 0 && DistinctCorners(v1, v2, v3, v4)
    ensures e1 == EdgeStart(LastEdge(edges, v1, v2, |edges| / 2), complexity)
    ensures e2 == EdgeStart(LastEdge(edges, v1, v4, |edges| / 2), complexity)
    ensures e3 == EdgeStart(LastEdge(edges, v2, v3, |edges| / 2), complexity)
    ensures e4 == EdgeStart(LastEdge(edges, v3, v4, |edges| / 2), complexity)
  {
    e1, e2, e3, e4 := -1, -1, -1, -1;
    var p := 0;
    while p < |edges| / 2
      invariant 0 <= p <= |edges| / 2
      invariant e1 == EdgeStart(LastEdge(edges, v1, v2, p), complexity)
      invariant e2 == EdgeStart(LastEdge(edges, v1, v4, p), complexity)
      invariant e3 == EdgeStart(LastEdge(edges, v2, v3, p), complexity)
      invariant e4 == EdgeStart(LastEdge(edges, v3, v4, p), complexity)
    {
      var j := 2 * p;
      HalfOfEvenProduct(p, complexity);
      var start := CubeCorners + j * complexity / 2;
      assert start == EdgeStart(p, complexity);
      JoinsExclusive(edges, p, v1, v2, v3, v4);
      LastEdgeStep(edges, v1, v2, p);
      LastEdgeStep(edges, v1, v4, p);
      LastEdgeStep(edges, v2, v3, p);
      LastEdgeStep(edges, v3, v4, p);
      if Joins(edges, p, v1, v2) {
        e1 := start;
      } else if Joins(edges, p, v1, v4) {
        e2 := start;
      } else if Joins(edges, p, v2, v3) {
        e3 := start;
      } else if Joins(edges, p, v3, v4) {
        e4 := start;
      }
      p := p + 1;
    }
  }

  /** The corners of cube face f, read off the face table: one face at a time keeps each
      lookup in the literal table short. */
  lemma CubeSquareValues(squares: seq<int>, f: int) returns (corners: seq<int>)
    requires squares == [0, 1, 3, 2, 0, 4, 5, 1, 0, 2, 6, 4, 1, 5, 7, 3, 2, 3, 7, 6, 4, 6, 7, 5]
    requires 0 <= f < 6
    ensures |corners| == 4 && squares[4 * f..4 * f + 4] == corners
    ensures f == 0 ==> corners == [0, 1, 3, 2]
    ensures f == 1 ==> corners == [0, 4, 5, 1]
    ensures f == 2 ==> corners == [0, 2, 6, 4]
    ensures f == 3 ==> corners == [1, 5, 7, 3]
    ensures f == 4 ==> corners == [2, 3, 7, 6]
    ensures f == 5 ==> corners == [4, 6, 7, 5]
  {
    if f == 0 {
      corners := [0, 1, 3, 2];
      assert squares[0] == 0 && squares[1] == 1 && squares[2] == 3 && squares[3] == 2;
    } else if f == 1 {
      corners := [0, 4, 5, 1];
      assert squares[4] == 0 && squares[5] == 4 && squares[6] == 5 && squares[7] == 1;
    } else if f == 2 {
      corners := [0, 2, 6, 4];
      assert squares[8] == 0 && squares[9] == 2 && squares[10] == 6 && squares[11] == 4;
    } else if f == 3 {
      corners := [1, 5, 7, 3];
      assert squares[12] == 1 && squares[13] == 5 && squares[14] == 7 && squares[15] == 3;
    } else if f == 4 {
      corners := [2, 3, 7, 6];
      assert squares[16] == 2 && squares[17] == 3 && squares[18] == 7 && squares[19] == 6;
    } else {
      corners := [4, 6, 7, 5];
      assert squares[20] == 4 && squares[21] == 6 && squares[22] == 7 && squares[23] == 5;
    }
  }

  /** The table pairs that join the sides of the six cube faces. */
  lemma CubeSidesJoined(edges: seq<int>)
    requires edges == [0, 1, 0, 2, 0, 4, 1, 3, 1, 5, 2, 3, 2, 6, 3, 7, 4, 5, 4, 6, 5, 7, 6, 7]
    ensures Joins(edges, 0, 0, 1) && Joins(edges, 1, 0, 2)
    ensures Joins(edges, 3, 1, 3) && Joins(edges, 5, 3, 2)
    ensures Joins(edges, 2, 0, 4) && Joins(edges, 0, 0, 1)
    ensures Joins(edges, 8, 4, 5) && Joins(edges, 4, 5, 1)
    ensures Joins(edges, 1, 0, 2) && Joins(edges, 2, 0, 4)
    ensures Joins(edges, 6, 2, 6) && Joins(edges, 9, 6, 4)
    ensures Joins(edges, 4, 1, 5) && Joins(edges, 3, 1, 3)
    ensures Joins(edges, 10, 5, 7) && Joins(edges, 7, 7, 3)
    ensures Joins(edges, 5, 2, 3) && Joins(edges, 6, 2, 6)
    ensures Joins(edges, 7, 3, 7) && Joins(edges, 11, 7, 6)
    ensures Joins(edges, 9, 4, 6) && Joins(edges, 8, 4, 5)
    ensures Joins(edges, 11, 6, 7) && Joins(edges, 10, 7, 5)
  {
  }

  /** The corners of each cube face are four distinct cube corners. */
  lemma CubeFaceCorners(squares: seq<int>, f: int)
    requires squares == [0, 1, 3, 2, 0, 4, 5, 1, 0, 2, 6, 4, 1, 5, 7, 3, 2, 3, 7, 6, 4, 6, 7, 5]
    requires 0 <= f < 6
    ensures DistinctCorners(squares[4 * f], squares[4 * f + 1], squares[4 * f + 2], squares[4 * f + 3])
    ensures forall k :: 4 * f <= k < 4 * f + 4 ==> 0 <= squares[k] < CubeCorners
  {
    var corners := CubeSquareValues(squares, f);
    assert squares[4 * f] == corners[0] && squares[4 * f + 1] == corners[1];
    assert squares[4 * f + 2] == corners[2] && squares[4 * f + 3] == corners[3];
  }

  /** Each side v1-v2, v1-v4, v2-v3, v3-v4 of a cube face is joined by a pair of the edge table. */
  lemma CubeFaceSides(edges: seq<int>, corners: seq<int>, f: int) returns (sides: seq<int>)
    requires edges == [0, 1, 0, 2, 0, 4, 1, 3, 1, 5, 2, 3, 2, 6, 3, 7, 4, 5, 4, 6, 5, 7, 6, 7]
    requires 0 <= f < 6 && |corners| == 4
    requires f == 0 ==> corners == [0, 1, 3, 2]
    requires f == 1 ==> corners == [0, 4, 5, 1]
    requires f == 2 ==> corners == [0, 2, 6, 4]
    requires f == 3 ==> corners == [1, 5, 7, 3]
    requires f == 4 ==> corners == [2, 3, 7, 6]
    requires f == 5 ==> corners == [4, 6, 7, 5]
    ensures |sides| == 4 && forall k :: 0 <= k < 4 ==> 0 <= sides[k] < 12
    ensures Joins(edges, sides[0], corners[0], corners[1]) && Joins(edges, sides[1], corners[0], corners[3])
    ensures Joins(edges, sides[2], corners[1], corners[2]) && Joins(edges, sides[3], corners[2], corners[3])
    ensures f == 0 ==> sides == [0, 1, 3, 5]
    ensures f == 1 ==> sides == [2, 0, 8, 4]
    ensures f == 2 ==> sides == [1, 2, 6, 9]
    ensures f == 3 ==> sides == [4, 3, 10, 7]
    ensures f == 4 ==> sides == [5, 6, 7, 11]
    ensures f == 5 ==> sides == [9, 8, 11, 10]
  {
    CubeSidesJoined(edges);
    if f == 0 {
      sides := [0, 1, 3, 5];
    } else if f == 1 {
      sides := [2, 0, 8, 4];
    } else if f == 2 {
      sides := [1, 2, 6, 9];
    } else if f == 3 {
      sides := [4, 3, 10, 7];
    } else if f == 4 {
      sides := [5, 6, 7, 11];
    } else {
      sides := [9, 8, 11, 10];
    }
  }

  /** Every cube face has four distinct corners and each of its four sides is an edge of the
      table, so none of e1 .. e4 keeps its initial -1 of Game.cs 142-145. */
  lemma CubeFacesHaveEdges(edges: seq<int>, squares: seq<int>, f: int)
    requires edges == [0, 1, 0, 2, 0, 4, 1, 3, 1, 5, 2, 3, 2, 6, 3, 7, 4, 5, 4, 6, 5, 7, 6, 7]
    requires squares == [0, 1, 3, 2, 0, 4, 5, 1, 0, 2, 6, 4, 1, 5, 7, 3, 2, 3, 7, 6, 4, 6, 7, 5]
    requires 0 <= f < 6
    ensures DistinctCorners(squares[4 * f], squares[4 * f + 1], squares[4 * f + 2], squares[4 * f + 3])
    ensures LastEdge(edges, squares[4 * f], squares[4 * f + 1], 12) >= 0
    ensures LastEdge(edges, squares[4 * f], squares[4 * f + 3], 12) >= 0
    ensures LastEdge(edges, squares[4 * f + 1], squares[4 * f + 2], 12) >= 0
    ensures LastEdge(edges, squares[4 * f + 2], squares[4 * f + 3], 12) >= 0
  {
    CubeFaceCorners(squares, f);
    var corners := CubeSquareValues(squares, f);
    assert squares[4 * f] == corners[0] && squares[4 * f + 1] == corners[1];
    assert squares[4 * f + 2] == corners[2] && squares[4 * f + 3] == corners[3];
    var sides := CubeFaceSides(edges, corners, f);
    LastEdgeFinds(edges, squares[4 * f], squares[4 * f + 1], 12, sides[0]);
    LastEdgeFinds(edges, squares[4 * f], squares[4 * f + 3], 12, sides[1]);
    LastEdgeFinds(edges, squares[4 * f + 1], squares[4 * f + 2], 12, sides[2]);
    LastEdgeFinds(edges, squares[4 * f + 2], squares[4 * f + 3], 12, sides[3]);
  }

  /** A pair that joins a and b is found: the last joining pair is at or after it. */
  lemma {:induction false} LastEdgeFinds(edges: seq<int>, a: int, b: int, n: int, p: int)
    requires 0 <= p < n && 2 * n <= |edges| && Joins(edges, p, a, b)
    ensures LastEdge(edges, a, b, n) >= p
  {
    if p < n - 1 {
      LastEdgeFinds(edges, a, b, n - 1, p);
    }
  }

  // ---------------------------------------------------------------------------------------
  // Cutting one face into a grid of quads (Game.cs 153-194)

  /** The corners v1 .. v4 of a face, in order around it, and the first appended vertex of each
      side: e1 on v1-v2, e2 on v1-v4, e3 on v2-v3 and e4 on v3-v4. */
  datatype FaceFrame = FaceFrame(v1: int, v2: int, v3: int, v4: int, e1: int, e2: int, e3: int, e4: int)

  /** The vertices of side e, `complexity` of them from e on, lie among those appended for the
      twelve cube edges. */
  predicate SideInRange(e: int, complexity: nat) {
    CubeCorners <= e && e + complexity <= CubeCorners + 12 * complexity
  }

  /** A frame whose corners are cube corners and whose sides are cube edges. */
  predicate FrameInRange(f: FaceFrame, complexity: nat) {
    0 <= f.v1 < CubeCorners && 0 <= f.v2 < CubeCorners && 0 <= f.v3 < CubeCorners && 0 <= f.v4 < CubeCorners
    && SideInRange(f.e1, complexity) && SideInRange(f.e2, complexity)
    && SideInRange(f.e3, complexity) && SideInRange(f.e4, complexity)
  }

  /** The vertex at row r, column k of the (complexity+2) x (complexity+2) grid laid over the
      face: row 0 runs from v1 along side e1 to v2, the last row from v4 along side e4 to v3,
      column 0 runs down side e2 and the last column down side e3, and the inner vertices are
      the ones appended for the face, row by row, from `base` on.  Sides are walked from their
      lower-numbered corner, which is where the edge table starts them. */
  function GridVertex(f: FaceFrame, complexity: nat, base: int, r: int, k: int): int
    requires 0 <= r <= complexity + 1 && 0 <= k <= complexity + 1
  {
    var c := complexity;
    if r == 0 then
      (if k == 0 then f.v1 else if k == c + 1 then f.v2 else f.e1 + k - 1)
    else if r <= c then
      (if k == 0 then f.e2 + r - 1
       else if k == c + 1 then f.e3 + (if f.v2 < f.v3 then r - 1 else c - r)
       else base + Times(r - 1, c) + k - 1)
    else
      (if k == 0 then f.v4
       else if k == c + 1 then f.v3
       else f.e4 + (if f.v3 > f.v4 then k - 1 else c - k))
  }

  /** j * c as j additions of c: the count of vertices in j grid rows, kept linear for the
      solver. */
  function Times(j: nat, c: nat): nat {
    if j == 0 then 0 else Times(j - 1, c) + c
  }

  lemma {:induction false} TimesIsProduct(j: nat, c: nat)
    ensures Times(j, c) == j * c
  {
    if j > 0 {
      TimesIsProduct(j - 1, c);
      MulSucc(j - 1, c);
    }
  }

  /** Row r of the grid. */
  function GridRow(f: FaceFrame, complexity: nat, base: int, r: int): (row: seq<int>)
    requires 0 <= r <= complexity + 1
    ensures |row| == complexity + 2
    ensures forall k :: 0 <= k < complexity + 2 ==> row[k] == GridVertex(f, complexity, base, r, k)
  {
    seq(complexity + 2, k requires 0 <= k < complexity + 2 => GridVertex(f, complexity, base, r, k))
  }

  /** The quad of grid cell (j, k), corners in the order the face lists its own: top-left,
      top-right, bottom-right, bottom-left. */
  function Cell(f: FaceFrame, complexity: nat, base: int, j: int, k: int): seq<int>
    requires 0 <= j <= complexity && 0 <= k <= complexity
  {
    [GridVertex(f, complexity, base, j, k), GridVertex(f, complexity, base, j, k + 1),
     GridVertex(f, complexity, base, j + 1, k + 1), GridVertex(f, complexity, base, j + 1, k)]
  }

  /** The quads of the first k cells of grid row j. */
  function RowCells(f: FaceFrame, complexity: nat, base: int, j: int, k: int): (quads: seq<int>)
    requires 0 <= j <= complexity && 0 <= k <= complexity + 1
    ensures |quads| == 4 * k
  {
    if k == 0 then [] else RowCells(f, complexity, base, j, k - 1) + Cell(f, complexity, base, j, k - 1)
  }

  /** The quads of the first j grid rows. */
  function GridQuads(f: FaceFrame, complexity: nat, base: int, j: int): (quads: seq<int>)
    requires 0 <= j <= complexity + 1
    ensures |quads| == 4 * Times(j, complexity + 1)
  {
    if j == 0 then []
    else GridQuads(f, complexity, base, j - 1) + RowCells(f, complexity, base, j - 1, complexity + 1)
  }

  /** All (complexity+1)² quads of a face. */
  function FaceQuads(f: FaceFrame, complexity: nat, base: int): seq<int> {
    GridQuads(f, complexity, base, complexity + 1)
  }

  /** The quads of one grid row, appended as Game.cs 172-178 does from the current and the
      new row. */
  method AppendRowQuads(complexity: nat, currentRow: array<int>, newRow: array<int>, squares0: seq<int>,
                        ghost f: FaceFrame, ghost base: int, ghost j: int)
    returns (squares: seq<int>)
    requires 0 <= j <= complexity
    requires currentRow[..] == GridRow(f, complexity, base, j)
    requires newRow[..] == GridRow(f, complexity, base, j + 1)
    ensures squares == squares0 + RowCells(f, complexity, base, j, complexity + 1)
  {
    squares := squares0;
    var k := 0;
    while k < complexity + 1
      invariant 0 <= k <= complexity + 1
      invariant squares == squares0 + RowCells(f, complexity, base, j, k)
    {
      squares := squares + [currentRow[k], currentRow[k + 1], newRow[k + 1], newRow[k]];
      k := k + 1;
    }
  }

  /** The first row, Game.cs 153-156: v1, the vertices of side e1, v2. */
  method FirstRow(complexity: nat, f: FaceFrame, ghost base: int) returns (row: array<int>)
    ensures fresh(row) && row[..] == GridRow(f, complexity, base, 0)
  {
    row := new int[complexity + 2];
    row[0] := f.v1;
    var j := 0;
    while j < complexity
      invariant 0 <= j <= complexity
      invariant row[0] == f.v1
      invariant forall t :: 1 <= t <= j ==> row[t] == f.e1 + t - 1
    {
      row[j + 1] := f.e1 + j;
      j := j + 1;
    }
    row[complexity + 1] := f.v2;
  }

  /** Row j + 1, Game.cs 159-171: for an inner row, the vertex of side e2, the vertices
      appended next for the face (there are `count` so far), the vertex of side e3; for the
      last row v4, the vertices of side e4, v3. */
  method NextRow(complexity: nat, f: FaceFrame, j: int, count: int, ghost base: int) returns (row: array<int>)
    requires 0 <= j <= complexity && (j < complexity ==> count == base + Times(j, complexity))
    ensures fresh(row) && row[..] == GridRow(f, complexity, base, j + 1)
  {
    row := new int[complexity + 2];
    if j < complexity {
      row[0] := f.e2 + j;
      var k := 0;
      while k < complexity
        invariant 0 <= k <= complexity
        invariant row[0] == f.e2 + j
        invariant forall t :: 1 <= t <= k ==> row[t] == count + t - 1
      {
        row[k + 1] := count + k;
        k := k + 1;
      }
      row[complexity + 1] := f.e3 + (if f.v2 < f.v3 then j else complexity - 1 - j);
    } else {
      row[0] := f.v4;
      var k := 0;
      while k < complexity
        invariant 0 <= k <= complexity
        invariant row[0] == f.v4
        invariant forall t :: 1 <= t <= k ==> row[t] == f.e4 + (if f.v3 > f.v4 then t - 1 else complexity - t)
      {
        row[k + 1] := f.e4 + (if f.v3 > f.v4 then k else complexity - 1 - k);
        k := k + 1;
      }
      row[complexity + 1] := f.v3;
    }
  }

  /** (j + 1) rows of c vertices are j rows and one more. */
  lemma MulSucc(j: int, c: int)
    ensures (j + 1) * c == j * c + c
  {
  }

  /** The ends of an inner row lie on sides e2 and e3, among the edge vertices. */
  lemma RowEndsExist(f: FaceFrame, complexity: nat, base: int, row: seq<int>, j: int)
    requires FrameInRange(f, complexity) && base >= CubeCorners + 12 * complexity && 0 <= j < complexity
    requires row == GridRow(f, complexity, base, j + 1)
    ensures 0 <= row[0] < base && 0 <= row[complexity + 1] < base
  {
    assert row[0] == GridVertex(f, complexity, base, j + 1, 0);
    assert row[complexity + 1] == GridVertex(f, complexity, base, j + 1, complexity + 1);
  }

  /** One pass of the row loop of Game.cs 157-194: the next row, the quads between it and the
      current one, and the row's inner vertices. */
  method SubdivideRow(complexity: nat, f: FaceFrame, currentRow: array<int>, j: int, squares0: seq<int>,
                      count0: int, ghost base: int)
    returns (newRow: array<int>, squares: seq<int>, count: int)
    requires FrameInRange(f, complexity) && base >= CubeCorners + 12 * complexity && 0 <= j <= complexity
    requires count0 == base + Times(j, complexity)
    requires currentRow[..] == GridRow(f, complexity, base, j)
    ensures fresh(newRow) && newRow[..] == GridRow(f, complexity, base, j + 1)
    ensures squares == squares0 + RowCells(f, complexity, base, j, complexity + 1)
    ensures count == if j < complexity then count0 + complexity else count0
  {
    newRow := NextRow(complexity, f, j, count0, base);
    squares := AppendRowQuads(complexity, currentRow, newRow, squares0, f, base, j);
    count := count0;
    if j < complexity {
      // the ends of the new row are vertices already there (read at Game.cs 181-182)
      RowEndsExist(f, complexity, base, newRow[..], j);
      assert 0 <= newRow[0] < count && 0 <= newRow[complexity + 1] < count;
      // the complexity inner vertices of the row (positions at Game.cs 184-190)
      count := count + complexity;
    }
  }

  /** One face of Game.cs 136-194: (complexity+1)² quads appended to `squares0` and complexity²
      vertices to the `count0` there are, after the corners and the edge vertices. */
  method SubdivideFace(complexity: nat, f: FaceFrame, squares0: seq<int>, count0: int)
    returns (squares: seq<int>, count: int)
    requires FrameInRange(f, complexity) && count0 >= CubeCorners + 12 * complexity
    ensures count == count0 + Times(complexity, complexity)
    ensures squares == squares0 + FaceQuads(f, complexity, count0)
  {
    var currentRow := FirstRow(complexity, f, count0);
    squares, count := squares0, count0;
    var j := 0;
    while j < complexity + 1
      invariant 0 <= j <= complexity + 1
      invariant count == count0 + Times(if j <= complexity then j else complexity, complexity)
      invariant currentRow[..] == GridRow(f, complexity, count0, j)
      invariant squares == squares0 + GridQuads(f, complexity, count0, j)
    {
      currentRow, squares, count := SubdivideRow(complexity, f, currentRow, j, squares, count, count0);
      j := j + 1;
    }
  }

  /** Rows of c are at least as many vertices the more rows there are. */
  lemma {:induction false} TimesMonotone(a: nat, b: nat, c: nat)
    requires a <= b
    ensures Times(a, c) <= Times(b, c)
  {
    if a < b {
      TimesMonotone(a, b - 1, c);
    }
  }

  /** Every grid vertex of a face is a vertex there is once the face's own are appended: a cube
      corner, a vertex of a cube edge, or one of the complexity² vertices from `base` on. */
  lemma GridVertexBounded(f: FaceFrame, complexity: nat, base: int, r: int, k: int)
    requires FrameInRange(f, complexity) && base >= CubeCorners + 12 * complexity
    requires 0 <= r <= complexity + 1 && 0 <= k <= complexity + 1
    ensures 0 <= GridVertex(f, complexity, base, r, k) < base + Times(complexity, complexity)
  {
    if 0 < r <= complexity && 0 < k <= complexity {
      TimesMonotone(r, complexity, complexity);
      assert Times(r, complexity) == Times(r - 1, complexity) + complexity;
    }
  }

  /** Every entry of the quads of a row prefix is a grid vertex, hence in range. */
  lemma {:induction false} RowCellsBounded(f: FaceFrame, complexity: nat, base: int, j: int, k: int)
    requires FrameInRange(f, complexity) && base >= CubeCorners + 12 * complexity
    requires 0 <= j <= complexity && 0 <= k <= complexity + 1
    ensures forall t :: 0 <= t < |RowCells(f, complexity, base, j, k)| ==>
      0 <= RowCells(f, complexity, base, j, k)[t] < base + Times(complexity, complexity)
  {
    if k > 0 {
      RowCellsBounded(f, complexity, base, j, k - 1);
      GridVertexBounded(f, complexity, base, j, k - 1);
      GridVertexBounded(f, complexity, base, j, k);
      GridVertexBounded(f, complexity, base, j + 1, k);
      GridVertexBounded(f, complexity, base, j + 1, k - 1);
    }
  }

  /** Every entry of the quads of the first j rows is in range. */
  lemma {:induction false} GridQuadsBounded(f: FaceFrame, complexity: nat, base: int, j: int)
    requires FrameInRange(f, complexity) && base >= CubeCorners + 12 * complexity
    requires 0 <= j <= complexity + 1
    ensures forall t :: 0 <= t < |GridQuads(f, complexity, base, j)| ==>
      0 <= GridQuads(f, complexity, base, j)[t] < base + Times(complexity, complexity)
  {
    if j > 0 {
      GridQuadsBounded(f, complexity, base, j - 1);
      RowCellsBounded(f, complexity, base, j - 1, complexity + 1);
    }
  }

  // ---------------------------------------------------------------------------------------
  // The subdivided cube (Game.cs 119-194)

  /** Face `face` of the tables has four distinct corners among the cube corners, and each of
      its sides is joined by a pair of the edge table. */
  predicate FaceWellFormed(edges: seq<int>, squares: seq<int>, face: int)
    requires |edges| == 24 && |squares| == 24 && 0 <= face < 6
  {
    var v1, v2, v3, v4 := squares[4 * face], squares[4 * face + 1], squares[4 * face + 2], squares[4 * face + 3];
    DistinctCorners(v1, v2, v3, v4)
    && 0 <= v1 < CubeCorners && 0 <= v2 < CubeCorners && 0 <= v3 < CubeCorners && 0 <= v4 < CubeCorners
    && LastEdge(edges, v1, v2, 12) >= 0 && LastEdge(edges, v1, v4, 12) >= 0
    && LastEdge(edges, v2, v3, 12) >= 0 && LastEdge(edges, v3, v4, 12) >= 0
  }

  /** Twelve edges and six faces, every face well formed. */
  predicate CubeWellFormed(edges: seq<int>, squares: seq<int>) {
    |edges| == 24 && |squares| == 24 && forall face :: 0 <= face < 6 ==> FaceWellFormed(edges, squares, face)
  }

  /** The tables of Game.cs 117-118 describe a cube. */
  lemma CubeTablesWellFormed()
    ensures CubeWellFormed(CubeEdges, CubeSquares)
  {
    forall face | 0 <= face < 6
      ensures FaceWellFormed(CubeEdges, CubeSquares, face)
    {
      CubeFaceCorners(CubeSquares, face);
      CubeFacesHaveEdges(CubeEdges, CubeSquares, face);
    }
  }

  /** The frame of face `face`: its corners from the face table and the first vertex of each of
      its sides from the edge table, as Game.cs 138-152 finds them. */
  function CubeFrame(edges: seq<int>, squares: seq<int>, face: int, complexity: nat): FaceFrame
    requires |edges| == 24 && |squares| == 24 && 0 <= face < 6
  {
    var v1, v2, v3, v4 := squares[4 * face], squares[4 * face + 1], squares[4 * face + 2], squares[4 * face + 3];
    FaceFrame(v1, v2, v3, v4,
              EdgeStart(LastEdge(edges, v1, v2, 12), complexity),
              EdgeStart(LastEdge(edges, v1, v4, 12), complexity),
              EdgeStart(LastEdge(edges, v2, v3, 12), complexity),
              EdgeStart(LastEdge(edges, v3, v4, 12), complexity))
  }

  /** The vertices of edge pair p < 12 lie among those of the twelve edges. */
  lemma EdgeStartInRange(p: int, complexity: nat)
    requires 0 <= p < 12
    ensures SideInRange(EdgeStart(p, complexity), complexity)
  {
    assert p * complexity + complexity <= 12 * complexity by {
      assert (p + 1) * complexity <= 12 * complexity;
    }
  }

  /** The frame of a well-formed face is in range. */
  lemma CubeFrameInRange(edges: seq<int>, squares: seq<int>, face: int, complexity: nat)
    requires CubeWellFormed(edges, squares) && 0 <= face < 6
    ensures FrameInRange(CubeFrame(edges, squares, face, complexity), complexity)
  {
    assert FaceWellFormed(edges, squares, face);
    var v1, v2, v3, v4 := squares[4 * face], squares[4 * face + 1], squares[4 * face + 2], squares[4 * face + 3];
    EdgeStartInRange(LastEdge(edges, v1, v2, 12), complexity);
    EdgeStartInRange(LastEdge(edges, v1, v4, 12), complexity);
    EdgeStartInRange(LastEdge(edges, v2, v3, 12), complexity);
    EdgeStartInRange(LastEdge(edges, v3, v4, 12), complexity);
  }

  /** One pass of the face loop of Game.cs 136-195: the face starting at entry i of the
      face table, its sides looked up in the edge table, cut into its grid. */
  method SubdivideCubeFace(edges: seq<int>, faces: seq<int>, complexity: nat, face: int, squares0: seq<int>, count0: int)
    returns (squares: seq<int>, count: int)
    requires CubeWellFormed(edges, faces) && 0 <= face < 6 && count0 >= CubeCorners + 12 * complexity
    ensures count == count0 + Times(complexity, complexity)
    ensures squares == squares0 + FaceQuads(CubeFrame(edges, faces, face, complexity), complexity, count0)
    ensures forall t :: |squares0| <= t < |squares| ==> 0 <= squares[t] < count
  {
    var i := 4 * face;
    var v1, v2, v3, v4 := faces[i], faces[i + 1], faces[i + 2], faces[i + 3];
    assert FaceWellFormed(edges, faces, face);
    var e1, e2, e3, e4 := FindEdges(edges, complexity, v1, v2, v3, v4);
    var frame := FaceFrame(v1, v2, v3, v4, e1, e2, e3, e4);
    assert frame == CubeFrame(edges, faces, face, complexity);
    CubeFrameInRange(edges, faces, face, complexity);
    squares, count := SubdivideFace(complexity, frame, squares0, count0);
    GridQuadsBounded(frame, complexity, count0, complexity + 1);
  }

  /** The frames of the six faces of the tables. */
  function CubeFrames(edges: seq<int>, faces: seq<int>, complexity: nat): (frames: seq<FaceFrame>)
    requires |edges| == 24 && |faces| == 24
    ensures |frames| == 6 && forall face :: 0 <= face < 6 ==> frames[face] == CubeFrame(edges, faces, face, complexity)
  {
    seq(6, face requires 0 <= face < 6 => CubeFrame(edges, faces, face, complexity))
  }

  /** The index of the table pair joining corners a and b, in either order; -1 for two
      corners no cube edge joins. */
  function PairIndex(a: int, b: int): (p: int)
    ensures -1 <= p < 12
  {
    var key := if a < b then 8 * a + b else 8 * b + a;
    if key == 1 then 0 else if key == 2 then 1 else if key == 4 then 2
    else if key == 11 then 3 else if key == 13 then 4 else if key == 19 then 5
    else if key == 22 then 6 else if key == 31 then 7 else if key == 37 then 8
    else if key == 38 then 9 else if key == 47 then 10 else if key == 55 then 11
    else -1
  }

  /** Every pair q of the edge table is the pair PairIndex names for its two corners. */
  lemma PairIndexOfTable(edges: seq<int>, q: int)
    requires edges == [0, 1, 0, 2, 0, 4, 1, 3, 1, 5, 2, 3, 2, 6, 3, 7, 4, 5, 4, 6, 5, 7, 6, 7]
    requires 0 <= q < 12
    ensures PairIndex(edges[2 * q], edges[2 * q + 1]) == q
  {
    if q == 0 {
      assert edges[0] == 0 && edges[1] == 1;
    } else if q == 1 {
      assert edges[2] == 0 && edges[3] == 2;
    } else if q == 2 {
      assert edges[4] == 0 && edges[5] == 4;
    } else if q == 3 {
      assert edges[6] == 1 && edges[7] == 3;
    } else if q == 4 {
      assert edges[8] == 1 && edges[9] == 5;
    } else if q == 5 {
      assert edges[10] == 2 && edges[11] == 3;
    } else if q == 6 {
      assert edges[12] == 2 && edges[13] == 6;
    } else if q == 7 {
      assert edges[14] == 3 && edges[15] == 7;
    } else if q == 8 {
      assert edges[16] == 4 && edges[17] == 5;
    } else if q == 9 {
      assert edges[18] == 4 && edges[19] == 6;
    } else if q == 10 {
      assert edges[20] == 5 && edges[21] == 7;
    } else {
      assert edges[22] == 6 && edges[23] == 7;
    }
  }

  /** No two pairs of the edge table join the same two distinct corners, so the search of
      Game.cs 146-152 finds the one pair that does. */
  lemma OnlyJoiningPair(edges: seq<int>, a: int, b: int, p: int)
    requires edges == [0, 1, 0, 2, 0, 4, 1, 3, 1, 5, 2, 3, 2, 6, 3, 7, 4, 5, 4, 6, 5, 7, 6, 7]
    requires 0 <= p < 12 && a != b && Joins(edges, p, a, b)
    ensures LastEdge(edges, a, b, 12) == p
  {
    LastEdgeFinds(edges, a, b, 12, p);
    var q := LastEdge(edges, a, b, 12);
    PairIndexOfTable(edges, p);
    PairIndexOfTable(edges, q);
    PairIndexOfJoin(edges, p, a, b);
    PairIndexOfJoin(edges, q, a, b);
  }

  /** A pair joining two distinct corners has the index PairIndex gives those corners. */
  lemma PairIndexOfJoin(edges: seq<int>, p: int, a: int, b: int)
    requires 0 <= p && 2 * p + 1 < |edges| && a != b && Joins(edges, p, a, b)
    ensures PairIndex(a, b) == PairIndex(edges[2 * p], edges[2 * p + 1])
  {
    if a == edges[2 * p] {
      assert b == edges[2 * p + 1];
    } else {
      assert a == edges[2 * p + 1] && b == edges[2 * p];
    }
  }

  /** The frames of the six cube faces, written out: edge pair p's vertices start at
      8 + p complexity. */
  function CubeFaceFrames(complexity: nat): (frames: seq<FaceFrame>)
    ensures |frames| == 6
  {
    var c := complexity;
    [FaceFrame(0, 1, 3, 2, EdgeStart(0, c), EdgeStart(1, c), EdgeStart(3, c), EdgeStart(5, c)),
     FaceFrame(0, 4, 5, 1, EdgeStart(2, c), EdgeStart(0, c), EdgeStart(8, c), EdgeStart(4, c)),
     FaceFrame(0, 2, 6, 4, EdgeStart(1, c), EdgeStart(2, c), EdgeStart(6, c), EdgeStart(9, c)),
     FaceFrame(1, 5, 7, 3, EdgeStart(4, c), EdgeStart(3, c), EdgeStart(10, c), EdgeStart(7, c)),
     FaceFrame(2, 3, 7, 6, EdgeStart(5, c), EdgeStart(6, c), EdgeStart(7, c), EdgeStart(11, c)),
     FaceFrame(4, 6, 7, 5, EdgeStart(9, c), EdgeStart(8, c), EdgeStart(11, c), EdgeStart(10, c))]
  }

  /** The frame the edge search builds for face f of the tables is the one written out. */
  lemma CubeFrameFound(edges: seq<int>, faces: seq<int>, f: int, complexity: nat)
    requires edges == [0, 1, 0, 2, 0, 4, 1, 3, 1, 5, 2, 3, 2, 6, 3, 7, 4, 5, 4, 6, 5, 7, 6, 7]
    requires faces == [0, 1, 3, 2, 0, 4, 5, 1, 0, 2, 6, 4, 1, 5, 7, 3, 2, 3, 7, 6, 4, 6, 7, 5]
    requires 0 <= f < 6
    ensures CubeFrame(edges, faces, f, complexity) == CubeFaceFrames(complexity)[f]
  {
    var corners := CubeSquareValues(faces, f);
    assert faces[4 * f] == corners[0] && faces[4 * f + 1] == corners[1];
    assert faces[4 * f + 2] == corners[2] && faces[4 * f + 3] == corners[3];
    CubeFaceCorners(faces, f);
    var sides := CubeFaceSides(edges, corners, f);
    OnlyJoiningPair(edges, corners[0], corners[1], sides[0]);
    OnlyJoiningPair(edges, corners[0], corners[3], sides[1]);
    OnlyJoiningPair(edges, corners[1], corners[2], sides[2]);
    OnlyJoiningPair(edges, corners[2], corners[3], sides[3]);
    CubeFaceFrameOf(f, complexity, corners, sides);
  }

  /** Entry f of the written-out frames, from the corners and side pairs of face f. */
  lemma CubeFaceFrameOf(f: int, complexity: nat, corners: seq<int>, sides: seq<int>)
    requires 0 <= f < 6 && |corners| == 4 && |sides| == 4
    requires f == 0 ==> corners == [0, 1, 3, 2] && sides == [0, 1, 3, 5]
    requires f == 1 ==> corners == [0, 4, 5, 1] && sides == [2, 0, 8, 4]
    requires f == 2 ==> corners == [0, 2, 6, 4] && sides == [1, 2, 6, 9]
    requires f == 3 ==> corners == [1, 5, 7, 3] && sides == [4, 3, 10, 7]
    requires f == 4 ==> corners == [2, 3, 7, 6] && sides == [5, 6, 7, 11]
    requires f == 5 ==> corners == [4, 6, 7, 5] && sides == [9, 8, 11, 10]
    ensures CubeFaceFrames(complexity)[f]
      == FaceFrame(corners[0], corners[1], corners[2], corners[3],
                   EdgeStart(sides[0], complexity), EdgeStart(sides[1], complexity),
                   EdgeStart(sides[2], complexity), EdgeStart(sides[3], complexity))
  {
  }

  /** The frames of the tables are the six written out. */
  lemma CubeFramesFound(edges: seq<int>, faces: seq<int>, complexity: nat)
    requires edges == [0, 1, 0, 2, 0, 4, 1, 3, 1, 5, 2, 3, 2, 6, 3, 7, 4, 5, 4, 6, 5, 7, 6, 7]
    requires faces == [0, 1, 3, 2, 0, 4, 5, 1, 0, 2, 6, 4, 1, 5, 7, 3, 2, 3, 7, 6, 4, 6, 7, 5]
    ensures CubeFrames(edges, faces, complexity) == CubeFaceFrames(complexity)
  {
    forall f | 0 <= f < 6
      ensures CubeFrames(edges, faces, complexity)[f] == CubeFaceFrames(complexity)[f]
    {
      CubeFrameFound(edges, faces, f, complexity);
    }
  }

  /** The quads of the first n faces: each face cut into its grid, its inner vertices numbered
      after the edge vertices and the inner vertices of the faces before it. */
  function CubeMesh(frames: seq<FaceFrame>, complexity: nat, n: nat): (squares: seq<int>)
    requires n <= |frames|
    ensures |squares| == 4 * Times(n, Times(complexity + 1, complexity + 1))
  {
    if n == 0 then []
    else
      var base := CubeCorners + 12 * complexity + Times(n - 1, Times(complexity, complexity));
      CubeMesh(frames, complexity, n - 1) + FaceQuads(frames[n - 1], complexity, base)
  }

  /** Face n appends its grid to the mesh of the faces before it. */
  lemma {:induction false} CubeMeshNext(frames: seq<FaceFrame>, complexity: nat, n: nat)
    requires n < |frames|
    ensures var base := CubeCorners + 12 * complexity + Times(n, Times(complexity, complexity));
      CubeMesh(frames, complexity, n + 1) == CubeMesh(frames, complexity, n) + FaceQuads(frames[n], complexity, base)
  {
  }

  /** The body of the face loop: face `face` appended to the mesh of the faces before it. */
  method SubdivideNextFace(edges: seq<int>, faces: seq<int>, complexity: nat, face: nat, squares0: seq<int>, count0: int)
    returns (squares: seq<int>, count: int)
    requires CubeWellFormed(edges, faces) && face < 6
    requires count0 == CubeCorners + 12 * complexity + Times(face, Times(complexity, complexity))
    requires squares0 == CubeMesh(CubeFrames(edges, faces, complexity), complexity, face)
    requires forall t :: 0 <= t < |squares0| ==> 0 <= squares0[t] < count0
    ensures count == CubeCorners + 12 * complexity + Times(face + 1, Times(complexity, complexity))
    ensures squares == CubeMesh(CubeFrames(edges, faces, complexity), complexity, face + 1)
    ensures forall t :: 0 <= t < |squares| ==> 0 <= squares[t] < count
  {
    ghost var frames := CubeFrames(edges, faces, complexity);
    ghost var quads := FaceQuads(frames[face], complexity, count0);
    CubeMeshNext(frames, complexity, face);
    assert frames[face] == CubeFrame(edges, faces, face, complexity);
    squares, count := SubdivideCubeFace(edges, faces, complexity, face, squares0, count0);
    assert squares == squares0 + quads;
  }

  /** The vertex and quad lists of Game.cs 119-194 over the edge and face tables: the eight
      cube corners, `complexity` vertices per edge, then for each face its grid of quads and
      complexity² inner vertices.  Positions are not modelled, only how many vertices there
      are: 8 + 12 complexity + 6 complexity², and 6 (complexity+1)² quads, every corner of which
      is one of those vertices. */
  method Subdivide(edges: seq<int>, faces: seq<int>, complexity: nat) returns (vertexCount: int, squares: seq<int>)
    requires CubeWellFormed(edges, faces)
    ensures vertexCount == CubeCorners + 12 * complexity + 6 * (complexity * complexity)
    ensures squares == CubeMesh(CubeFrames(edges, faces, complexity), complexity, 6)
    ensures |squares| == 24 * ((complexity + 1) * (complexity + 1))
    ensures forall t :: 0 <= t < |squares| ==> 0 <= squares[t] < vertexCount
  {
    vertexCount := CubeCorners;
    var i := 0;
    ghost var pair := 0;
    while i < |edges|
      invariant 0 <= pair <= 12 && i == 2 * pair
      invariant vertexCount == CubeCorners + pair * complexity
    {
      // the complexity points rotated from one end of the edge to the other (Game.cs 128-133)
      MulSucc(pair, complexity);
      vertexCount := vertexCount + complexity;
      i, pair := i + 2, pair + 1;
    }
    squares := [];
    i := 0;
    var face := 0;
    while i < |faces|
      invariant 0 <= face <= 6 && i == 4 * face
      invariant vertexCount == CubeCorners + 12 * complexity + Times(face, Times(complexity, complexity))
      invariant squares == CubeMesh(CubeFrames(edges, faces, complexity), complexity, face)
      invariant forall t :: 0 <= t < |squares| ==> 0 <= squares[t] < vertexCount
    {
      squares, vertexCount := SubdivideNextFace(edges, faces, complexity, face, squares, vertexCount);
      i, face := i + 4, face + 1;
    }
    assert face == 6;
    CubeCounts(complexity);
  }

  /** Six faces of complexity² inner vertices and of (complexity+1)² quads. */
  lemma CubeCounts(complexity: nat)
    ensures Times(6, Times(complexity, complexity)) == 6 * (complexity * complexity)
    ensures 4 * Times(6, Times(complexity + 1, complexity + 1)) == 24 * ((complexity + 1) * (complexity + 1))
  {
    var inner, cells := Times(complexity, complexity), Times(complexity + 1, complexity + 1);
    TimesIsProduct(complexity, complexity);
    TimesIsProduct(complexity + 1, complexity + 1);
    TimesIsProduct(6, inner);
    TimesIsProduct(6, cells);
  }
}
