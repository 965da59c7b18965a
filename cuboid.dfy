/** The static topology `visualize_poses` draws: the corner table `P`
    (the centroid and the eight corners of an average car's bounding box,
    as homogeneous points) and the twelve edges `draw_line` joins. */
module Cuboid {

  /** Half extents of the box along x, y and z (metres). */
  const XL: real := 1.02
  const YL: real := 0.80
  const ZL: real := 2.31

  /** The rows of `P`: row 0 is the centroid, rows 1..8 the corners. */
  function Corners(): seq<seq<real>> {
    [[0.0, 0.0, 0.0, 1.0],
     [XL, YL, -ZL, 1.0],
     [XL, YL, ZL, 1.0],
     [-XL, YL, ZL, 1.0],
     [-XL, YL, -ZL, 1.0],
     [XL, -YL, -ZL, 1.0],
     [XL, -YL, ZL, 1.0],
     [-XL, -YL, ZL, 1.0],
     [-XL, -YL, -ZL, 1.0]]
  }

  /** The point pairs `draw_line` connects, in its order. */
  function Edges(): seq<(nat, nat)> {
    [(1, 2), (1, 4), (1, 5), (2, 3), (2, 6), (3, 4), (3, 7), (4, 8), (5, 8), (5, 6), (6, 7), (7, 8)]
  }

  /** Sign of a coordinate as a bit: 1 for positive, 0 otherwise. */
  function SignBit(v: real): nat {
    if v > 0.0 then 1 else 0
  }

  /** Number of axes on which corners `i` and `j` lie on opposite sides. */
  function SignDifferences(i: nat, j: nat): nat
    requires 1 <= i <= 8 && 1 <= j <= 8
  {
    var p, q := Corners()[i], Corners()[j];
    (if SignBit(p[0]) != SignBit(q[0]) then 1 else 0)
    + (if SignBit(p[1]) != SignBit(q[1]) then 1 else 0)
    + (if SignBit(p[2]) != SignBit(q[2]) then 1 else 0)
  }

  /** How many edges end at point `i`. */
  function Degree(edges: seq<(nat, nat)>, i: nat): nat {
    if |edges| == 0 then 0
    else (if edges[0].0 == i || edges[0].1 == i then 1 else 0) + Degree(edges[1..], i)
  }

  /** Corners 1..8 are the eight sign patterns `(+-XL, +-YL, +-ZL)`, all
      different, and the centroid is their mean. */
  lemma CornersAreTheSignPatterns()
    ensures |Corners()| == 9 && Corners()[0] == [0.0, 0.0, 0.0, 1.0]
    ensures forall i :: 1 <= i <= 8 ==>
      && |Corners()[i]| == 4 && Corners()[i][3] == 1.0
      && (Corners()[i][0] == XL || Corners()[i][0] == -XL)
      && (Corners()[i][1] == YL || Corners()[i][1] == -YL)
      && (Corners()[i][2] == ZL || Corners()[i][2] == -ZL)
    ensures forall i, j :: 1 <= i < j <= 8 ==> SignDifferences(i, j) > 0
    ensures forall k :: 0 <= k < 3 ==>
      Corners()[1][k] + Corners()[2][k] + Corners()[3][k] + Corners()[4][k]
      + Corners()[5][k] + Corners()[6][k] + Corners()[7][k] + Corners()[8][k] == 8.0 * Corners()[0][k]
  {
  }

  /** The twelve edges are the edges of the box: distinct, between corners
      1..8 only, each joining corners that differ on exactly one axis, and
      every such pair is one of them. */
  lemma EdgesAreTheBoxEdges()
    ensures |Edges()| == 12
    ensures forall e :: e in Edges() ==> 1 <= e.0 < e.1 <= 8 && SignDifferences(e.0, e.1) == 1
    ensures forall a, b :: 0 <= a < b < |Edges()| ==> Edges()[a] != Edges()[b]
    ensures forall i, j :: 1 <= i < j <= 8 && SignDifferences(i, j) == 1 ==> (i, j) in Edges()
  {
  }

  /** Every corner is on three edges and the centroid on none. */
  lemma EveryCornerHasDegreeThree()
    ensures Degree(Edges(), 0) == 0
    ensures forall i :: 1 <= i <= 8 ==> Degree(Edges(), i) == 3
  {
  }
}
