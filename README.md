# 3D Go: board generation and rules engine

This project models the two integer-level components of `Assets/Scripts/Game.cs` of the
3D Go game. The game is Go on the surface of a sphere.

- **Board generation** (`CreateBoard`, modules `Topology`, `Dual` and `Board`):
  - the faces of a cube are cut into a grid of `(complexity+1)²` quads each;
  - the dual of that quad mesh is taken: every quad becomes a dual vertex, that is a *slot*,
    and every mesh vertex in four quads becomes a dual quad whose corners are those quads;
  - the eight cube corners lie in three quads each and become dual triangles instead.
    CreateBoard computes those triangles but never reads connections from them;
  - the board is read off the dual quads only, as a flat list `connections` of slot pairs;
  - module `Sides` holds the list of every side of a dual face, which the board evidently
    means (see Findings).
- **Rules engine** (`NewGame`, `SetValidMoves`, `Move`, modules `Rules`, `Engine` and
  `Corrections`):
  - each player keeps one group label per slot, where 0 means no stone;
  - each player also keeps an occupancy snapshot;
  - the game keeps a legal-move mask, the turn and the prisoner counts.

`Engine.Game` is a class over those arrays. Its methods are proved against functions and
predicates of `Rules` over value snapshots:

- `ValidMoveAt` is the rule the mask implements;
- `Placed` and `AfterCapture` state what a move does to the labels;
- `Position` is the invariant the labels keep: labels are non-negative, the two players
  never share a slot, and two stones of one player share a positive label exactly when a
  path of that player's stones joins them.

Board generation appends to lists inside loops. It is modelled as methods over sequences,
proved equal to recursive definitions whose properties are then proved: index ranges,
counts, and the soundness and completeness of the connection list.

Two parts of the legal-move mask and one part of the connection list do not do what they
evidently mean (see Findings).
- `Engine.Game` and `Board.CreateBoard` keep the code as written, since that is what the game
  does.
- Modules `Corrections` and `Sides` hold the intended rules and the intended connection list,
  with their properties proved.

## Model

| member | source | states |
|---|---|---|
| Topology.CubeTablesWellFormed | Assets/Scripts/Game.cs:117-118 | The edge table holds twelve corner pairs and the face table six faces. Each face has four distinct cube corners, and each of its four sides is joined by a pair of the edge table. |
| Topology.LastEdge | Assets/Scripts/Game.cs:146-152 | The search result is the last of the first n pairs that joins a and b, none after it does; -1 means no pair joins them. |
| Topology.JoinsExclusive | Assets/Scripts/Game.cs:148-151 | For distinct corners, one edge pair joins at most one of the four face sides, so the else-if chain loses no match. |
| Topology.FindEdges | Assets/Scripts/Game.cs:142-152 | e1..e4 are the first vertices appended for the last edge pair joining sides v1-v2, v1-v4, v2-v3 and v3-v4. |
| Topology.CubeFacesHaveEdges | Assets/Scripts/Game.cs:136-152 | Every cube face has distinct corners, and the search finds an edge for each of its four sides. |
| Topology.FirstRow | Assets/Scripts/Game.cs:153-156 | The first row is v1, the complexity vertices of side e1, then v2: row 0 of the face grid. |
| Topology.NextRow | Assets/Scripts/Game.cs:159-171 | The new row is grid row j+1. Inner rows run from side e2 through the new inner vertices to side e3, in the direction the corner order gives. The last row is v4, side e4 and v3. |
| Topology.AppendRowQuads | Assets/Scripts/Game.cs:172-178 | Appends exactly the complexity+1 cell quads between the two rows, corners in face order. |
| Topology.SubdivideRow | Assets/Scripts/Game.cs:157-193 | One row pass appends one row of cells. It yields the next grid row and adds complexity to the vertex count for inner rows only. |
| Topology.SubdivideFace | Assets/Scripts/Game.cs:136-194 | One face appends exactly its (complexity+1)² grid quads and complexity² vertices. |
| Topology.GridVertexBounded | Assets/Scripts/Game.cs:153-171 | Every grid vertex of a face is below the vertex count once the face's own vertices are appended. |
| Topology.GridQuadsBounded | Assets/Scripts/Game.cs:172-178 | Every corner of the face's quads is a vertex that exists. |
| Topology.SubdivideCubeFace | Assets/Scripts/Game.cs:136-194 | The face read from the tables is subdivided, and all its appended corners are below the new vertex count. |
| Topology.PairIndexOfTable | Assets/Scripts/Game.cs:117 | Each pair of the edge table is the one pair its two corners name: no two table pairs join the same corners. |
| Topology.OnlyJoiningPair | Assets/Scripts/Game.cs:146-152 | Over the edge table, the search for two distinct corners joined by pair p finds exactly p. |
| Topology.CubeFrameFound | Assets/Scripts/Game.cs:136-152 | For face f of the tables, the corners and side vertices the face loop finds are those of the written-out frame f. |
| Topology.CubeFramesFound | Assets/Scripts/Game.cs:117-152 | The six frames read from the tables are the six written out. |
| Topology.CubeMesh | Assets/Scripts/Game.cs:136-194 | The first n faces hold 4·n·(c+1)² corner entries. |
| Topology.SubdivideNextFace | Assets/Scripts/Game.cs:136-195 | One pass of the face loop extends the mesh of the first `face` faces to that of the first `face`+1, adds c² vertices, and keeps every corner below the vertex count. |
| Topology.Subdivide | Assets/Scripts/Game.cs:119-195 | The quads are exactly the cube mesh: each face's grid, in face order. The mesh has 8 + 12·c + 6·c² vertices and 6·(c+1)² quads (24·(c+1)² corner entries), every corner below the vertex count. |
| Dual.NextCorner | Assets/Scripts/Game.cs:219 | The corner after entry j lies in the same quad, one place further round it. |
| Dual.PrevCorner | Assets/Scripts/Game.cs:218 | The corner before entry j lies in the same quad, one place back round it. |
| Dual.Incidences | Assets/Scripts/Game.cs:213-216 | Lists entries of the quad list that are vertex i, in increasing order. |
| Dual.IncidencesComplete | Assets/Scripts/Game.cs:213-216 | Every entry that is vertex i is listed. |
| Dual.StarUpTo | Assets/Scripts/Game.cs:213-221 | For each incidence t, the star holds the quad of that entry and the corners before and after it. |
| Dual.IncidentFaces | Assets/Scripts/Game.cs:213-221 | The collecting loop returns exactly the star of vertex i. |
| Dual.StarFacesInRange | Assets/Scripts/Game.cs:217 | Every face in a star is a quad of the list. |
| Dual.DualTriangle | Assets/Scripts/Game.cs:222-236 | A three-face vertex contributes either nothing or exactly three corners. |
| Dual.TourOfThree | Assets/Scripts/Game.cs:224-235 | The only orders of three faces starting from face 0 are 0 1 2 and 0 2 1. |
| Dual.DualTriangleGoesAround | Assets/Scripts/Game.cs:222-236 | The triangle is non-empty exactly when some order of the faces is chained round the vertex, and it lists the faces in such an order. |
| Dual.FirstLink | Assets/Scripts/Game.cs:244-250 | The first face after `from`, other than the current one, whose next corner is the current face's previous corner, or the current face when none is. |
| Dual.NextFace | Assets/Scripts/Game.cs:243-251 | The foundNext loop moves to the first matching face; later matches are ignored. |
| Dual.WalkNeverReturns | Assets/Scripts/Game.cs:240-253 | Over four faces, a walk away from face 0 on steps 1 to 4 never comes back. |
| Dual.QuadWalkCloses | Assets/Scripts/Game.cs:237-254 | On Success, the walk first returns to face 0 after at most four steps, and the faces appended are those visited. On Failure, it never returns. |
| Dual.QuadWalkGoesAround | Assets/Scripts/Game.cs:237-254 | A walk that first returns to quad 0 after four steps visits the four quads once each, each sharing a side with the next round the vertex (cyclically), and the dual quad lists their faces in that order. |
| Dual.DualQuadWalk | Assets/Scripts/Game.cs:237-254 | The do/while returns the bounded walk's result. |
| Dual.GatherFailure | Assets/Scripts/Game.cs:199-255 | Once one vertex's walk fails, the whole extraction fails. |
| Dual.StarContribution | Assets/Scripts/Game.cs:222-254 | The three-way case split of one vertex (3 faces, 4 faces, other) matches its definition. |
| Dual.ExtendDual | Assets/Scripts/Game.cs:199-255 | One round of the vertex loop appends vertex i's contribution to those of the vertices before it. |
| Dual.ExtractDual | Assets/Scripts/Game.cs:199-255 | The vertex loop gathers, in vertex order, what every vertex contributes. |
| Dual.StarDualInRange | Assets/Scripts/Game.cs:226-242 | Dual faces of a star use only the star's faces as corners. |
| Dual.GatherInRange | Assets/Scripts/Game.cs:199-255 | Gathered dual faces keep their corners in range. |
| Dual.DualCornersInRange | Assets/Scripts/Game.cs:199-255 | Every dual triangle and dual quad corner is a quad index, below the number of dual vertices. |
| Dual.DualVertexCount | Assets/Scripts/Game.cs:266-274 | One dual vertex is added per four quad corners. |
| Dual.LinksFrom | Assets/Scripts/Game.cs:282-293 | The inner loop for slot i records the links its definition gives. |
| Dual.ExtractConnections | Assets/Scripts/Game.cs:279-295 | The connection list is the links of all slots, in slot order. |
| Dual.LinksOfSound | Assets/Scripts/Game.cs:284-291 | Each pair recorded for slot a is a dual quad side from a to a larger slot. |
| Dual.LinksSound | Assets/Scripts/Game.cs:279-295 | The list has even length. Every pair (a, b) has a below the slot count and a < b, and a to b is a side of a dual quad. |
| Dual.LinksOfEven | Assets/Scripts/Game.cs:289-290 | Pairs are added two entries at a time. |
| Dual.LinksOfComplete | Assets/Scripts/Game.cs:284-291 | The side leaving corner j is recorded when its start is a and is the smaller end. |
| Dual.LinksComplete | Assets/Scripts/Game.cs:279-295 | Every dual quad side from slot a < n to a larger slot b is listed as a pair. |
| Dual.LinksBelow | Assets/Scripts/Game.cs:279-295 | Connections name only slots the dual quads name. |
| Board.SubdivideCube | Assets/Scripts/Game.cs:115-195 | Over the tables, the quads are the cube mesh of the written-out frames, with 8 + 12·c + 6·c² vertices and every corner below that count. |
| Board.BuildDual | Assets/Scripts/Game.cs:115-277 | The dual is the dual of the subdivided cube, over 6·(c+1)² slots, its quad corners all slots. |
| Board.BoardLinks | Assets/Scripts/Game.cs:279-295 | The connections read off quads within n slots form a board, and they are exactly the quad sides that run from a smaller slot to a larger one: every pair is such a side, and every such side is listed. |
| Board.CreateBoard | Assets/Scripts/Game.cs:113-295 | Success exactly when every vertex of the subdivided cube has a dual and the dual quads are whole. Then the slots number 6·(c+1)², the connections are a board, and they are exactly the sides that some dual quad of the cube runs from its smaller slot to its larger. Sides met only the other way round are not listed (see Findings). |
| Board.StartGame | Assets/Scripts/Game.cs:41-43 | A new game on the generated board, whose connections are those CreateBoard reads off the cube's dual quads: a valid state on 6·(c+1)² slots with no stones, no prisoners, player 1 to move, and a mask holding exactly the legal moves. |
| Sides.OneWaySideMissed | Assets/Scripts/Game.cs:279-295 | A pair of slots that no dual quad runs from the smaller to the larger is not a connection, in either order. |
| Sides.MissedSideExample | Assets/Scripts/Game.cs:279-295 | A triangle 0 1 2 and a quad 1 0 3 4 share the side 0-1, yet the written loop does not connect 0 and 1. |
| Sides.IncreasingOnce | Assets/Scripts/Game.cs:279-295 | In an increasing list of pairs no pair appears twice. |
| Sides.NeighboursAboveSound | Assets/Scripts/Game.cs:279-295 | The intended pairs for slot a are sides of dual faces from a to larger slots below m, in increasing order. |
| Sides.NeighboursAboveComplete | Assets/Scripts/Game.cs:279-295 | Every slot c with a < c < m sharing a side with a is paired with a. |
| Sides.SidesUpToSound | Assets/Scripts/Game.cs:279-295 | The intended list holds only sides of dual faces, each from its smaller end, in strictly increasing order. |
| Sides.SidesUpToComplete | Assets/Scripts/Game.cs:279-295 | Every side between slots a < b < n with a below k is listed. |
| Sides.BoardSidesExact | Assets/Scripts/Game.cs:279-295 | The intended list names (a, b) exactly when a < b < n and a and b share a side of a dual triangle or quad, met either way round, and no pair twice. |
| Sides.WrittenLinksIncluded | Assets/Scripts/Game.cs:279-295 | Every connection the written loop records is in the intended list. |
| Sides.MissedSideListed | Assets/Scripts/Game.cs:279-295 | On the example, the intended list connects slots 0 and 1. |
| Rules.PartnerOnBoard | Assets/Scripts/Game.cs:479 | The other end of a connection is a slot. |
| Rules.MateSwap | Assets/Scripts/Game.cs:479 | Entry j and its mate are the two ends of one connection, seen from either side. |
| Rules.EmptyPosition | Assets/Scripts/Game.cs:366-369 | The empty board satisfies the position invariant. |
| Rules.PositionSymmetric | Assets/Scripts/Game.cs:466-467 | The position invariant does not depend on which player is friendly. |
| Rules.LabelsBeforeStep | Assets/Scripts/Game.cs:475-481 | One more scanned entry adds its neighbour's label, if any, to the collected labels. |
| Rules.LabelsBeforeAll | Assets/Scripts/Game.cs:475-484 | Scanning all entries collects exactly the adjacent labels. |
| Rules.ScanMarksCases | Assets/Scripts/Game.cs:480-482 | The final else is reached at an entry exactly when its neighbour starts neither a new friendly group nor a new enemy group. |
| Rules.MarkedBeforeExists | Assets/Scripts/Game.cs:475-484 | The running scan marks the slot exactly when some entry reaches the else. |
| Rules.NeighbourLabelsAdjacent | Assets/Scripts/Game.cs:539-546 | Every positive label on a neighbour is among the adjacent labels. |
| Rules.AdjacentLabelSource | Assets/Scripts/Game.cs:539-546 | Every adjacent label is carried by some neighbour. |
| Rules.LibertyOfExtensionIsValid | Assets/Scripts/Game.cs:500-515 | Each liberty found for a friendly group next to candidate x is itself a legal move, so marking it early changes nothing. |
| Rules.FreshLabel | Assets/Scripts/Game.cs:549-557 | The new label is the least positive label absent from the friendly array. |
| Rules.FreshFrom | Assets/Scripts/Game.cs:551-557 | Counting up from k, the first absent label is found, and every label below it is present. |
| Rules.MinOf | Assets/Scripts/Game.cs:562-563 | The result is in the set and no larger than any element. |
| Rules.Removed | Assets/Scripts/Game.cs:590-599 | Counts stones present before and gone after; never more than the slots. |
| Rules.PlacedAlone | Assets/Scripts/Game.cs:547-558 | With no friendly neighbour, the stone gets an unused positive label and nothing else changes. |
| Rules.PlacedJoining | Assets/Scripts/Game.cs:560-566 | The stone and every stone of the adjacent groups share one label. No other stone changes or appears, and stones that shared a label still do. |
| Rules.PlacedCoherent | Assets/Scripts/Game.cs:537-566 | Placement keeps connected friendly stones under one label. |
| Rules.DoomedUnaffectedByOtherCaptures | Assets/Scripts/Game.cs:577-601 | Removing other enemy groups first does not change whether group g is doomed, so capture order is irrelevant. |
| Rules.RemovedNone | Assets/Scripts/Game.cs:576 | Before any capture, the prisoner increment is zero. |
| Rules.RemovedClearOne | Assets/Scripts/Game.cs:594-595 | Clearing one more stone adds exactly one prisoner. |
| Rules.AfterCaptureKeepsLabels | Assets/Scripts/Game.cs:577-601 | After captures, every enemy stone is kept or gone, and the labels stay non-negative and coherent. |
| Rules.StonePathJoin | Assets/Scripts/Game.cs:560-566 | A path of stones from x to y followed by one from y to z is a path from x to z. |
| Rules.StonePathRelabel | Assets/Scripts/Game.cs:565 | A path of label-g stones stays a path when every label-g stone is relabelled to g'. |
| Rules.PlacedAloneConnected | Assets/Scripts/Game.cs:547-558 | A stone placed with a fresh label keeps every group joined by its own stones. |
| Rules.PathsThroughPlaced | Assets/Scripts/Game.cs:560-566 | Every stone of a merged group is joined to the new stone, in both directions, after the merge. |
| Rules.JoinedPair | Assets/Scripts/Game.cs:560-566 | After a merge, any two friendly stones sharing a positive label are joined by a path of stones with that label. |
| Rules.PlacedJoiningConnected | Assets/Scripts/Game.cs:560-566 | Merging groups through the new stone keeps every label one connected group. |
| Rules.AfterCaptureConnected | Assets/Scripts/Game.cs:577-601 | Removing whole enemy groups keeps every surviving enemy label one connected group. |
| Rules.MoveKeepsPosition | Assets/Scripts/Game.cs:529-619 | A move on an empty slot keeps the position invariant for both players: labels stay non-negative and disjoint, and stones share a positive label exactly when a path of their stones joins them. |
| Engine.ScanNeighbours | Assets/Scripts/Game.cs:473-484 | The two collected lists are exactly the distinct adjacent friendly and enemy labels. The slot is marked exactly when the scan's else is reached. |
| Engine.AdjacentGroups | Assets/Scripts/Game.cs:538-546 | The collected list is exactly the distinct labels next to the slot. |
| Engine.IsDoomed | Assets/Scripts/Game.cs:488-496 | doomed holds exactly when no stone of group g has an empty neighbour other than `except`. |
| Engine.DoomedGroups | Assets/Scripts/Game.cs:485-499 | The doomed list holds exactly the adjacent enemy groups with no liberty but the candidate. It is non-empty exactly when the move captures. |
| Engine.GroupLiberties | Assets/Scripts/Game.cs:500-514 | Every liberty found is a kept liberty of an adjacent friendly group, and every such liberty is found. |
| Engine.KoAt | Assets/Scripts/Game.cs:517-523 | As written, the ko flag is always cleared. |
| Engine.RemoveGroup | Assets/Scripts/Game.cs:590-599 | Every stone of group g is cleared, nothing else changes, and one prisoner is added per stone. |
| Engine.NewLabel | Assets/Scripts/Game.cs:547-557 | The label is positive and absent, and every smaller positive label is present. |
| Engine.MinLabel | Assets/Scripts/Game.cs:562-563 | The minimum of the adjacent labels. |
| Engine.NoLabels | Assets/Scripts/Game.cs:368-369 | A fresh label array of n slots, every entry 0. |
| Engine.NoStones | Assets/Scripts/Game.cs:366-367 | A fresh flag array of n slots, every entry false. |
| Engine.Game.constructor | Assets/Scripts/Game.cs:104-111 | A valid game on the given board: no stones in labels or snapshots, player 1 to move, no prisoners, and a mask holding exactly the legal moves. |
| Engine.Game.NewGame | Assets/Scripts/Game.cs:361-378 | Fresh arrays with no stones in labels or snapshots, player 1 to move, no prisoners, and a mask holding exactly the legal moves. |
| Engine.Game.ClearState | Assets/Scripts/Game.cs:366-375 | Fresh label, snapshot and mask arrays of the board's size; no stones in labels or snapshots, player 1 to move, no prisoners. |
| Engine.Game.SetValidMoves | Assets/Scripts/Game.cs:463-527 | The labels are unchanged, and the mask marks a slot exactly when ValidMoveAt holds for the player to move. |
| Engine.Game.ClearMask | Assets/Scripts/Game.cs:465 | Every mask entry is cleared. |
| Engine.Game.MarkCandidates | Assets/Scripts/Game.cs:468-525 | The mask marks only legal moves and marks all of them, and the ko mask stays clear. |
| Engine.Game.EvaluateCandidate | Assets/Scripts/Game.cs:471-523 | After candidate i, the mask stays sound and covers every legal move up to i, and no ko is set. |
| Engine.Game.MarkLiberties | Assets/Scripts/Game.cs:500-515 | Marks i when a friendly neighbour group keeps a liberty, along with that liberty, and keeps the mask sound. |
| Engine.Game.ApplyKo | Assets/Scripts/Game.cs:526 | Each mask entry is and-ed with the negated ko flag. |
| Engine.Game.Move | Assets/Scripts/Game.cs:529-620 | The snapshot is the pre-move labels. The mover's labels become Placed and the opponent's AfterCapture. The mover gains one prisoner per removed stone, the turn flips, and the new mask is exact for the next player. |
| Engine.Game.PlayStone | Assets/Scripts/Game.cs:536-619 | The mover's labels are placed, captures are counted for the mover only, and the turn flips. |
| Engine.Game.PlayFirst | Assets/Scripts/Game.cs:602-607 | For player 1's move: player 1's labels are placed, player 2's are captured, and player 1 gains the prisoners. |
| Engine.Game.PlaySecond | Assets/Scripts/Game.cs:608-613 | For player 2's move: player 2's labels are placed, player 1's are captured, and player 2 gains the prisoners. |
| Engine.Game.PlaceAndCapture | Assets/Scripts/Game.cs:536-601 | The two label arrays become Placed and AfterCapture, and the prisoners count the removed stones. |
| Engine.Game.SnapshotOccupancy | Assets/Scripts/Game.cs:531-535 | Both snapshots equal Occupancy of the current labels. |
| Engine.Game.PlaceStone | Assets/Scripts/Game.cs:538-566 | The friendly labels become Placed. |
| Engine.Game.Capture | Assets/Scripts/Game.cs:567-601 | The enemy labels become AfterCapture of the placed position, with one prisoner per removed stone. |
| Corrections.PlacedOccupancy | Assets/Scripts/Game.cs:547-566 | After placement, the friendly stones are the old ones plus s. |
| Corrections.CapturedAreDoomed | Assets/Scripts/Game.cs:485-499 | The groups Move captures are exactly the groups SetValidMoves records as doomed for that slot. |
| Corrections.KoRepeats | Assets/Scripts/Game.cs:517-523 | With the slot counted as occupied, the intended ko flag holds exactly when the snapshot is recreated. |
| Corrections.KoTestPredictsMove | Assets/Scripts/Game.cs:517-523 | The intended test holds exactly when playing i and capturing brings back the snapshot occupancy. |
| Corrections.KoExample | Assets/Scripts/Game.cs:517-523 | On a two-slot ko, slot 0 is legal and the move recreates the snapshot, yet the written test fails at j == 0. |
| Corrections.IntendedMoveKeepsLiberty | Assets/Scripts/Game.cs:475-484 | Under the intended rule, the group of a newly played stone always has a liberty after captures. |
| Corrections.CapturedLibertyCaptures | Assets/Scripts/Game.cs:577-601 | A neighbour that held an enemy stone and is empty after captures means the move captures. |
| Corrections.EmptyLibertyIntended | Assets/Scripts/Game.cs:475-484 | A liberty of the new stone's group that was empty before the move means the stone has an empty neighbour or joins a friendly group that keeps a liberty. |
| Corrections.LibertyMeansIntended | Assets/Scripts/Game.cs:475-484 | Conversely, a move on an empty slot whose group has a liberty after captures satisfies the intended rule. |
| Corrections.IntendedIffNotSuicide | Assets/Scripts/Game.cs:475-484 | On an empty slot, the intended rule holds exactly when the move is not suicide. |
| Corrections.IntendedIsValid | Assets/Scripts/Game.cs:475-484 | Every move the intended rule allows is also marked by the rule as written; only suicides separate them. |
| Corrections.SuicideBoardPosition | Assets/Scripts/Game.cs:475-484 | The four-slot board of Findings is a valid position. |
| Corrections.SuicideMarkedValid | Assets/Scripts/Game.cs:475-484 | As written, the scan marks slot 0 legal on the four-slot board of Findings. |
| Corrections.SuicideLeavesNoLiberty | Assets/Scripts/Game.cs:577-601 | On that board, the stone on 0 captures nothing and its group has no liberty. |
| Corrections.SuicideNotIntended | Assets/Scripts/Game.cs:475-484 | The intended rule rejects that move. |

## Left out

- Rendering and Unity scene handling are left out: meshes, `Instantiate`/`Destroy`, `boardStones`, `currentStone`, colours, tile and bevel construction.
- Floating-point geometry is left out: vertex positions, rotations, normalisation, and the stone mesh of `Awake`. Only how many vertices are appended is modelled.
- `Update` (input, raycasting, camera, nearest-slot picking) is left out, and so is `ClearBoard`. Their only rules-related effect is the gate `validMove[selectedSlot]` before `Move`.
- `gameOver`, `komi` and scoring are left out: `gameOver` is never set true, and `komi` is unused.
- Engine.Game.Move: requires only an empty target slot. The game's caller gates on `validMove[slot]`, and under `MovesCurrent` that implies `ValidMoveAt`, which includes emptiness.
- Integer overflow of C# `int` (labels, prisoners, vertex counts) is not modelled; integers are unbounded.
- Topology.Subdivide: `complexity` is a `nat`, so negative complexity is not modelled.
- The triangle lists of the quad mesh are left out: `newTriangles` is never appended to, so the loops over it run zero times.
- Dual.DualQuadWalk: the do/while is cut off after four steps and returns Failure where the original loops forever. Dual.WalkNeverReturns proves the two agree.
- Board.CreateBoard: a dual quad list whose length is not a multiple of four returns Failure. The original would read past the end of the list at line 286.
- Board.CreateBoard: it does not prove that the cube mesh always yields Success. Its contract holds whenever generation succeeds.
- Board.CreateBoard keeps the connection loop as written, sides missed and all. The intended list is Sides.BoardSides, proved alongside; it is not wired into CreateBoard.
- Board.CreateBoard: it does not prove how many sides the cube board misses. The count of twelve for complexity 1 and up, and of all twelve at complexity 0 where there are no dual quads, comes from reading the index logic, not from a proof.
- The Game class keeps the ko test and the suicide shortcut as written. The corrected rules are in module Corrections, proved alongside, and are not wired into the class.

## Findings

| source | as written | input that shows it | evidently intended | confidence | as-written member | corrected member |
|---|---|---|---|---|---|---|
| Assets/Scripts/Game.cs:517-523 | The ko test compares the snapshot with the current labels. Since `friendlyOccupied[i]` holds and `friendlyGroups[i] == 0`, the comparison at j == i always clears `ko[i]`, so ko never forbids a move. | connections [0,1]; friendly labels [0,0]; enemy [0,1]; snapshot friendly [true,false], enemy [false,false]; candidate slot 0 | Flag the move when the position after it (stone on i, doomed groups removed) equals the snapshot | not executed | Engine.KoAt, Corrections.KoExample | Corrections.KoRepeats, Corrections.KoTestPredictsMove |
| Assets/Scripts/Game.cs:475-484 | A neighbour whose label was already collected falls into the final `else` and marks the slot legal, even when the move is suicide | connections [0,1,0,2,1,2,1,3]; friendly labels [0,0,0,0]; enemy [0,5,5,0]; slot 0 | Mark a slot only for an empty neighbour, a capture, or a friendly group keeping a liberty | not executed | Corrections.SuicideMarkedValid, Corrections.SuicideLeavesNoLiberty | Corrections.IntendedMoveKeepsLiberty, Corrections.LibertyMeansIntended, Corrections.IntendedIffNotSuicide |
| Assets/Scripts/Game.cs:279-295 | Connections are read only from the dual quads, and only where the quad runs from the smaller slot to the larger. A side met only from its larger end, such as a side shared by a corner triangle and one quad, is never a connection. | complexity 3: slots 0 and 32 (the corner-0 cells of faces 0 and 2) share only the dual quad 0 4 33 32, which runs 32 to 0, and the corner triangle, so they are not connected and both have degree below 3; on a small mesh, triangle 0 1 2 with quad 1 0 3 4 | List every side of a dual triangle or quad once, from its smaller end, whichever way round it is met | not executed | Sides.OneWaySideMissed, Sides.MissedSideExample | Sides.BoardSidesExact, Sides.WrittenLinksIncluded, Sides.MissedSideListed |
