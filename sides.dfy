/** The connection list of Game.cs 279-295 reads a side of the board only from the dual quads,
    and only at a corner that is the smaller end of the side it starts.  A side whose quads all
    run it from the larger slot to the smaller, and every side of a dual triangle, is never
    read.  This module shows that, and defines the list the board evidently means: every side
    of a dual face, whichever way round it is met, listed once from its smaller end. */
module Sides {
  import opened Dual

  // ---------------------------------------------------------------------------------------
  // The connection list as written

  /** A pair of slots that the dual quads only ever run from the larger to the smaller is not
      among the connections, in either order. */
  lemma OneWaySideMissed(quads: seq<int>, n: nat, a: int, b: int)
    requires |quads| % 4 == 0 && a < b && !Side(quads, a, b)
    ensures !Listed(Links(quads, n), a, b) && !Listed(Links(quads, n), b, a)
  {
    LinksSound(quads, n);
    ListedIsSide(quads, n, Links(quads, n), a, b);
    ListedIsSide(quads, n, Links(quads, n), b, a);
  }

  /** A pair listed in a list of links is a side from its smaller end. */
  lemma ListedIsSide(quads: seq<int>, n: int, s: seq<int>, a: int, b: int)
    requires |quads| % 4 == 0 && SoundLinks(quads, n, s)
    ensures Listed(s, a, b) ==> a < b && Side(quads, a, b)
  {
    if Listed(s, a, b) {
      var p :| 0 <= p < |s| - 1 && p % 2 == 0 && s[p] == a && s[p + 1] == b;
    }
  }

  /** A dual triangle 0 1 2 and a dual quad 1 0 3 4 that share the side between slots 0 and 1:
      the quad meets it from slot 1, so slots 0 and 1 are never connected. */
  lemma MissedSideExample()
    ensures Side([1, 0, 3, 4], 1, 0) && TriangleSide([0, 1, 2], 0, 1)
    ensures !Listed(Links([1, 0, 3, 4], 5), 0, 1) && !Listed(Links([1, 0, 3, 4], 5), 1, 0)
  {
    var quads := [1, 0, 3, 4];
    assert quads[0] == 1 && quads[NextCorner(0)] == 0;
    assert [0, 1, 2][0] == 0 && [0, 1, 2][NextInTriangle(0)] == 1;
    forall j | 0 <= j < |quads| && quads[j] == 0
      ensures !(NextCorner(j) < |quads| && quads[NextCorner(j)] == 1)
    {
      assert j == 1;
    }
    OneWaySideMissed(quads, 5, 0, 1);
  }

  // ---------------------------------------------------------------------------------------
  // The sides of the dual faces

  /** The corner after entry j of the dual triangle list, one place further round its triangle. */
  function NextInTriangle(j: int): (k: int)
    ensures j >= 0 ==> k >= 0 && k / 3 == j / 3 && k != j
  {
    if j % 3 < 2 then j + 1 else j - 2
  }

  /** Some side of a dual triangle goes from corner a to corner b. */
  predicate TriangleSide(triangles: seq<int>, a: int, b: int) {
    exists j :: 0 <= j < |triangles| && triangles[j] == a && NextInTriangle(j) < |triangles| && triangles[NextInTriangle(j)] == b
  }

  /** Slots a and b share a side of a dual triangle or a dual quad, met in either direction. */
  predicate Adjacent(mesh: DualMesh, a: int, b: int)
    requires |mesh.quads| % 4 == 0
  {
    TriangleSide(mesh.triangles, a, b) || TriangleSide(mesh.triangles, b, a)
    || Side(mesh.quads, a, b) || Side(mesh.quads, b, a)
  }

  /** The pairs (a, c) for a < c < m with a and c adjacent, c increasing. */
  function NeighboursAbove(mesh: DualMesh, a: nat, m: nat): seq<int>
    requires |mesh.quads| % 4 == 0
  {
    if m <= a + 1 then []
    else NeighboursAbove(mesh, a, m - 1) + (if Adjacent(mesh, a, m - 1) then [a, m - 1] else [])
  }

  /** The sides of the dual faces among slots below n whose smaller end is below k, as pairs
      from the smaller end, in increasing order. */
  function SidesUpTo(mesh: DualMesh, k: nat, n: nat): seq<int>
    requires |mesh.quads| % 4 == 0
  {
    if k == 0 then [] else SidesUpTo(mesh, k - 1, n) + NeighboursAbove(mesh, k - 1, n)
  }

  /** The connection list the board evidently means: every side of a dual face between slots
      below n. */
  function BoardSides(mesh: DualMesh, n: nat): seq<int>
    requires |mesh.quads| % 4 == 0
  {
    SidesUpTo(mesh, n, n)
  }

  /** The pair at p is a side of a dual face from its smaller end, that end in lo .. k-1 and
      the other below n. */
  predicate AdjacentPair(mesh: DualMesh, lo: int, k: int, n: int, s: seq<int>, p: int)
    requires |mesh.quads| % 4 == 0 && 0 <= p < |s| - 1
  {
    lo <= s[p] < k && s[p] < s[p + 1] < n && Adjacent(mesh, s[p], s[p + 1])
  }

  /** Every pair of s is such a side. */
  predicate AdjacentPairs(mesh: DualMesh, lo: int, k: int, n: int, s: seq<int>)
    requires |mesh.quads| % 4 == 0
  {
    |s| % 2 == 0 && forall p :: 0 <= p < |s| - 1 && p % 2 == 0 ==> AdjacentPair(mesh, lo, k, n, s, p)
  }

  /** The pair at p comes before the pair at q, first by smaller end, then by larger. */
  predicate PairBefore(s: seq<int>, p: int, q: int)
    requires 0 <= p < |s| - 1 && 0 <= q < |s| - 1
  {
    s[p] < s[q] || (s[p] == s[q] && s[p + 1] < s[q + 1])
  }

  /** The pairs of s come in strictly increasing order: in particular no pair is listed twice. */
  predicate PairsIncreasing(s: seq<int>) {
    |s| % 2 == 0 && forall p, q :: 0 <= p < q < |s| - 1 && p % 2 == 0 && q % 2 == 0 ==> PairBefore(s, p, q)
  }

  /** An increasing list of pairs lists no pair twice. */
  lemma IncreasingOnce(s: seq<int>, p: int, q: int)
    requires PairsIncreasing(s) && 0 <= p < q < |s| - 1 && p % 2 == 0 && q % 2 == 0
    ensures s[p] != s[q] || s[p + 1] != s[q + 1]
  {
    assert PairBefore(s, p, q);
  }

  /** The neighbours of a are sides from a, listed with increasing partners below m. */
  lemma {:induction false} NeighboursAboveSound(mesh: DualMesh, a: nat, m: nat)
    requires |mesh.quads| % 4 == 0
    ensures AdjacentPairs(mesh, a, a + 1, m, NeighboursAbove(mesh, a, m))
    ensures PairsIncreasing(NeighboursAbove(mesh, a, m))
  {
    if m > a + 1 {
      NeighboursAboveSound(mesh, a, m - 1);
      var s := NeighboursAbove(mesh, a, m - 1);
      var t := if Adjacent(mesh, a, m - 1) then [a, m - 1] else [];
      forall p | 0 <= p < |s + t| - 1 && p % 2 == 0
        ensures AdjacentPair(mesh, a, a + 1, m, s + t, p)
      {
        if p >= |s| {
          assert (s + t)[p] == t[p - |s|] && (s + t)[p + 1] == t[p - |s| + 1];
        } else {
          assert AdjacentPair(mesh, a, a + 1, m - 1, s, p);
        }
      }
      forall p, q | 0 <= p < q < |s + t| - 1 && p % 2 == 0 && q % 2 == 0
        ensures PairBefore(s + t, p, q)
      {
        if q >= |s| {
          assert AdjacentPair(mesh, a, a + 1, m - 1, s, p);
          assert (s + t)[q] == a && (s + t)[q + 1] == m - 1;
        } else {
          assert PairBefore(s, p, q);
        }
      }
    }
  }

  /** Every partner c of a below m is listed with a. */
  lemma {:induction false} NeighboursAboveComplete(mesh: DualMesh, a: nat, m: nat, c: int)
    requires |mesh.quads| % 4 == 0 && a < c < m && Adjacent(mesh, a, c)
    ensures Listed(NeighboursAbove(mesh, a, m), a, c)
  {
    var s := NeighboursAbove(mesh, a, m - 1);
    var t := if Adjacent(mesh, a, m - 1) then [a, m - 1] else [];
    NeighboursAboveSound(mesh, a, m - 1);
    if c < m - 1 {
      NeighboursAboveComplete(mesh, a, m - 1, c);
    } else {
      assert t[0] == a && t[1] == c;
    }
    ListedAppend(s, t, a, c);
  }

  /** Two runs of sides, the smaller ends of the first below k and those of the second k,
      make one run of sides with smaller ends below k + 1. */
  lemma AppendSides(mesh: DualMesh, k: nat, n: int, s: seq<int>, t: seq<int>)
    requires |mesh.quads| % 4 == 0
    requires AdjacentPairs(mesh, 0, k, n, s) && AdjacentPairs(mesh, k, k + 1, n, t)
    ensures AdjacentPairs(mesh, 0, k + 1, n, s + t)
  {
    forall p | 0 <= p < |s + t| - 1 && p % 2 == 0
      ensures AdjacentPair(mesh, 0, k + 1, n, s + t, p)
    {
      if p >= |s| {
        assert AdjacentPair(mesh, k, k + 1, n, t, p - |s|);
        assert (s + t)[p] == t[p - |s|] && (s + t)[p + 1] == t[p - |s| + 1];
      } else {
        assert AdjacentPair(mesh, 0, k, n, s, p);
      }
    }
  }

  /** Two increasing runs of pairs, every smaller end of the first below k and every one of
      the second k, make one increasing run. */
  lemma AppendIncreasing(s: seq<int>, t: seq<int>, k: int)
    requires PairsIncreasing(s) && PairsIncreasing(t)
    requires forall p :: 0 <= p < |s| && p % 2 == 0 ==> s[p] < k
    requires forall q :: 0 <= q < |t| && q % 2 == 0 ==> t[q] == k
    ensures PairsIncreasing(s + t)
  {
    forall p, q | 0 <= p < q < |s + t| - 1 && p % 2 == 0 && q % 2 == 0
      ensures PairBefore(s + t, p, q)
    {
      if p >= |s| {
        assert PairBefore(t, p - |s|, q - |s|);
        assert (s + t)[p] == t[p - |s|] && (s + t)[p + 1] == t[p - |s| + 1];
        assert (s + t)[q] == t[q - |s|] && (s + t)[q + 1] == t[q - |s| + 1];
      } else if q >= |s| {
        assert (s + t)[p] == s[p] && (s + t)[q] == t[q - |s|];
      } else {
        assert PairBefore(s, p, q);
      }
    }
  }

  /** The list holds only sides of dual faces, from the smaller end, in increasing order. */
  lemma {:induction false} SidesUpToSound(mesh: DualMesh, k: nat, n: nat)
    requires |mesh.quads| % 4 == 0
    ensures AdjacentPairs(mesh, 0, k, n, SidesUpTo(mesh, k, n)) && PairsIncreasing(SidesUpTo(mesh, k, n))
  {
    if k > 0 {
      SidesUpToSound(mesh, k - 1, n);
      NeighboursAboveSound(mesh, k - 1, n);
      var s, t := SidesUpTo(mesh, k - 1, n), NeighboursAbove(mesh, k - 1, n);
      AppendSides(mesh, k - 1, n, s, t);
      forall p | 0 <= p < |s| && p % 2 == 0
        ensures s[p] < k - 1
      {
        assert AdjacentPair(mesh, 0, k - 1, n, s, p);
      }
      forall q | 0 <= q < |t| && q % 2 == 0
        ensures t[q] == k - 1
      {
        assert AdjacentPair(mesh, k - 1, k, n, t, q);
      }
      AppendIncreasing(s, t, k - 1);
    }
  }

  /** Every side of a dual face between slots a < b < n with a below k is listed. */
  lemma {:induction false} SidesUpToComplete(mesh: DualMesh, k: nat, n: nat, a: int, b: int)
    requires |mesh.quads| % 4 == 0 && 0 <= a < k && a < b < n && Adjacent(mesh, a, b)
    ensures Listed(SidesUpTo(mesh, k, n), a, b)
  {
    SidesUpToSound(mesh, k - 1, n);
    if a == k - 1 {
      NeighboursAboveComplete(mesh, a, n, b);
    } else {
      SidesUpToComplete(mesh, k - 1, n, a, b);
    }
    ListedAppend(SidesUpTo(mesh, k - 1, n), NeighboursAbove(mesh, k - 1, n), a, b);
  }

  /** The intended list is sound, complete and free of repeats: a pair (a, b) is listed exactly
      when a < b < n and a and b share a side of a dual triangle or quad, in either direction,
      and no pair appears twice. */
  lemma BoardSidesExact(mesh: DualMesh, n: nat, a: int, b: int)
    requires |mesh.quads| % 4 == 0
    ensures PairsIncreasing(BoardSides(mesh, n))
    ensures Listed(BoardSides(mesh, n), a, b) <==> 0 <= a < b < n && Adjacent(mesh, a, b)
  {
    var s := BoardSides(mesh, n);
    SidesUpToSound(mesh, n, n);
    if Listed(s, a, b) {
      var p :| 0 <= p < |s| - 1 && p % 2 == 0 && s[p] == a && s[p + 1] == b;
      assert AdjacentPair(mesh, 0, n, n, s, p);
    }
    if 0 <= a < b < n && Adjacent(mesh, a, b) {
      SidesUpToComplete(mesh, n, n, a, b);
    }
  }

  /** Every connection the written loop records is among the intended ones, for quads whose
      corners are slots below n. */
  lemma WrittenLinksIncluded(mesh: DualMesh, n: nat, a: int, b: int)
    requires |mesh.quads| % 4 == 0 && Below(mesh.quads, n) && Listed(Links(mesh.quads, n), a, b)
    ensures Listed(BoardSides(mesh, n), a, b)
  {
    LinksSound(mesh.quads, n);
    var s := Links(mesh.quads, n);
    var p :| 0 <= p < |s| - 1 && p % 2 == 0 && s[p] == a && s[p + 1] == b;
    assert Side(mesh.quads, a, b);
    var j :| 0 <= j < |mesh.quads| && mesh.quads[j] == a && NextCorner(j) < |mesh.quads| && mesh.quads[NextCorner(j)] == b;
    BoardSidesExact(mesh, n, a, b);
  }

  /** On the example, the intended list connects slots 0 and 1. */
  lemma MissedSideListed()
    ensures Listed(BoardSides(DualMesh([0, 1, 2], [1, 0, 3, 4]), 5), 0, 1)
  {
    var mesh := DualMesh([0, 1, 2], [1, 0, 3, 4]);
    MissedSideExample();
    BoardSidesExact(mesh, 5, 0, 1);
  }
}
