/** Board generation as a whole (Game.cs 113-295): subdivide the cube, take the dual of the
    quad mesh, and read the slot connections off the dual quads.  Awake (Game.cs 41-43) builds
    the board this way before Start (Game.cs 104-111) begins a game on it. */
module Board {
  import opened Rules
  import opened Topology
  import opened Dual
  import opened Engine

  /** What board generation leaves for play: the connection list over slots 0 .. slotCount-1. */
  datatype Surface = Surface(connections: seq<int>, slotCount: nat)

  /** The number of vertices of the subdivided cube. */
  function CubeVertexCount(complexity: nat): nat {
    CubeCorners + 12 * complexity + 6 * (complexity * complexity)
  }

  /** The dual of the subdivided cube, vertex by vertex, or Failure when some vertex has none. */
  ghost function CubeDual(complexity: nat): Outcome<DualMesh> {
    var n := CubeVertexCount(complexity);
    Gather(VertexDuals(CubeMesh(CubeFaceFrames(complexity), complexity, 6), n), n)
  }

  /** Every pair of `connections` is a side of the dual quads from a slot below n to a larger
      one, and every such side is listed. */
  ghost predicate ListsSides(quads: seq<int>, n: nat, connections: seq<int>)
    requires |quads| % 4 == 0
  {
    && SoundLinks(quads, n, connections)
    && forall a, b :: 0 <= a < n && a < b && Side(quads, a, b) ==> Listed(connections, a, b)
  }

  /** The connection list read off dual quads whose corners are slots below n is a board over
      those slots listing exactly the sides of the quads. */
  lemma BoardLinks(quads: seq<int>, n: nat)
    requires |quads| % 4 == 0 && Below(quads, n)
    ensures IsBoard(Links(quads, n), n) && ListsSides(quads, n, Links(quads, n))
  {
    LinksSound(quads, n);
    LinksBelow(quads, n, n);
    forall a, b | 0 <= a < n && a < b && Side(quads, a, b)
      ensures Listed(Links(quads, n), a, b)
    {
      LinksComplete(quads, n, a, b);
    }
  }

  /** The integer part of CreateBoard.  Failure stands for the two ways the source never gets a
      board: a dual walk that never returns to its first quad (the do/while of Game.cs 240-253
      runs forever) and a dual quad list whose length is not a multiple of four (the corner
      lookup of Game.cs 286 then reads past its end).  On success the connections are exactly
      the sides that some dual quad of the subdivided cube runs from its smaller slot to its
      larger; a side met only the other way round, or only in a dual triangle, is not among
      them (module Sides). */
  method CreateBoard(complexity: nat) returns (r: Outcome<Surface>)
    ensures r.Success? <==> CubeDual(complexity).Success? && |CubeDual(complexity).value.quads| % 4 == 0
    ensures r.Success? ==> IsBoard(r.value.connections, r.value.slotCount)
    ensures r.Success? ==> r.value.slotCount == 6 * ((complexity + 1) * (complexity + 1))
    ensures r.Success? ==> r.value.connections == Links(CubeDual(complexity).value.quads, r.value.slotCount)
    ensures r.Success? ==> ListsSides(CubeDual(complexity).value.quads, r.value.slotCount, r.value.connections)
  {
    var dual, slotCount := BuildDual(complexity);
    if dual.Failure? || |dual.value.quads| % 4 != 0 {
      r := Failure;
    } else {
      var connections := ExtractConnections(dual.value.quads, slotCount);
      BoardLinks(dual.value.quads, slotCount);
      r := Success(Surface(connections, slotCount));
    }
  }

  /** The subdivision of the cube of Game.cs 115-195, over the tables of lines 117-118. */
  method SubdivideCube(complexity: nat) returns (vertexCount: nat, squares: seq<int>)
    ensures vertexCount == CubeVertexCount(complexity)
    ensures squares == CubeMesh(CubeFaceFrames(complexity), complexity, 6)
    ensures |squares| == 24 * ((complexity + 1) * (complexity + 1))
    ensures forall t :: 0 <= t < |squares| ==> 0 <= squares[t] < vertexCount
  {
    var edges, faces := CubeEdges, CubeSquares;
    CubeTablesWellFormed();
    var count;
    count, squares := Subdivide(edges, faces, complexity);
    CubeFramesFound(edges, faces, complexity);
    vertexCount := count;
  }

  /** The subdivision and the dual of CreateBoard (Game.cs 115-277): one slot per quad of the
      subdivided cube, and the dual mesh, whose quad corners are those slots. */
  method BuildDual(complexity: nat) returns (dual: Outcome<DualMesh>, slotCount: nat)
    ensures dual == CubeDual(complexity)
    ensures slotCount == 6 * ((complexity + 1) * (complexity + 1))
    ensures dual.Success? ==> Below(dual.value.quads, slotCount)
  {
    var vertexCount, squares := SubdivideCube(complexity);
    dual := ExtractDual(squares, vertexCount);
    slotCount := DualVertexCount(squares);
    if dual.Success? {
      DualCornersInRange(squares, vertexCount);
    }
  }

  /** Awake then Start: a new game on a freshly generated board, or none when generation fails. */
  method StartGame(complexity: nat) returns (game: Game?)
    ensures game != null ==> fresh(game) && game.Valid() && game.MovesCurrent() && game.player1Turn
    ensures game != null ==> game.slotCount == 6 * ((complexity + 1) * (complexity + 1))
    ensures game != null ==> CubeDual(complexity).Success? && |CubeDual(complexity).value.quads| % 4 == 0
    ensures game != null ==> game.connections == Links(CubeDual(complexity).value.quads, game.slotCount)
    ensures game != null ==> game.player1Prisoners == 0 && game.player2Prisoners == 0
    ensures game != null ==> forall x :: 0 <= x < game.slotCount ==>
      game.player1Groups[x] == 0 && game.player2Groups[x] == 0 && !game.player1Occupied[x] && !game.player2Occupied[x]
  {
    var board := CreateBoard(complexity);
    if board.Failure? {
      return null;
    }
    game := new Game(board.value.connections, board.value.slotCount);
  }
}
