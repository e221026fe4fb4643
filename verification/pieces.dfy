/** The static piece catalogue of the engine: seven tetrominoes in the order
    I, O, T, L, J, S, Z, each with four rotation states of four cell offsets
    (dx, dy) from the piece anchor, and the two wall-kick tables. */
module Pieces {

  /** A cell offset relative to the anchor; y grows upwards. */
  datatype Offset = Offset(dx: int, dy: int)

  const Kinds := 7
  const Rotations := 4
  /** Index of the I piece, the only one with its own kick table. */
  const IPiece := 0
  const OPiece := 1

  const Shapes: seq<seq<seq<Offset>>> := [
    // I
    [
      [Offset(-1, 1), Offset(0, 1), Offset(1, 1), Offset(2, 1)],
      [Offset(1, 2), Offset(1, 1), Offset(1, 0), Offset(1, -1)],
      [Offset(-1, 0), Offset(0, 0), Offset(1, 0), Offset(2, 0)],
      [Offset(0, 2), Offset(0, 1), Offset(0, 0), Offset(0, -1)]
    ],
    // O
    [
      [Offset(1, 0), Offset(1, 1), Offset(0, 0), Offset(0, 1)],
      [Offset(1, 0), Offset(1, 1), Offset(0, 0), Offset(0, 1)],
      [Offset(1, 0), Offset(1, 1), Offset(0, 0), Offset(0, 1)],
      [Offset(1, 0), Offset(1, 1), Offset(0, 0), Offset(0, 1)]
    ],
    // T
    [
      [Offset(-1, 0), Offset(0, 0), Offset(0, 1), Offset(1, 0)],
      [Offset(0, 0), Offset(0, 1), Offset(0, -1), Offset(1, 0)],
      [Offset(-1, 0), Offset(0, 0), Offset(0, -1), Offset(1, 0)],
      [Offset(-1, 0), Offset(0, 1), Offset(0, 0), Offset(0, -1)]
    ],
    // L
    [
      [Offset(-1, 1), Offset(0, 1), Offset(1, 1), Offset(1, 2)],
      [Offset(0, 2), Offset(0, 1), Offset(0, 0), Offset(1, 0)],
      [Offset(-1, 1), Offset(0, 1), Offset(1, 1), Offset(-1, 0)],
      [Offset(0, 2), Offset(0, 1), Offset(0, 0), Offset(-1, 2)]
    ],
    // J
    [
      [Offset(-1, 1), Offset(0, 1), Offset(1, 1), Offset(-1, 2)],
      [Offset(0, 2), Offset(0, 1), Offset(0, 0), Offset(1, 2)],
      [Offset(-1, 1), Offset(0, 1), Offset(1, 1), Offset(1, 0)],
      [Offset(0, 2), Offset(0, 1), Offset(0, 0), Offset(-1, 0)]
    ],
    // S
    [
      [Offset(-1, 0), Offset(0, 1), Offset(0, 0), Offset(1, 1)],
      [Offset(0, 1), Offset(0, 0), Offset(1, 0), Offset(1, -1)],
      [Offset(-1, -1), Offset(0, -1), Offset(0, 0), Offset(1, 0)],
      [Offset(-1, 1), Offset(-1, 0), Offset(0, 0), Offset(0, -1)]
    ],
    // Z
    [
      [Offset(-1, 1), Offset(0, 1), Offset(0, 0), Offset(1, 0)],
      [Offset(1, 1), Offset(1, 0), Offset(0, 0), Offset(0, -1)],
      [Offset(-1, 0), Offset(0, 0), Offset(0, -1), Offset(1, -1)],
      [Offset(-1, -1), Offset(-1, 0), Offset(0, 0), Offset(0, 1)]
    ]
  ]

  const IKick: seq<seq<Offset>> := [
    [Offset(-2, 0), Offset(1, 0), Offset(-2, -1), Offset(1, 2)],
    [Offset(2, 0), Offset(-1, 0), Offset(2, 1), Offset(-1, -2)],
    [Offset(-1, 0), Offset(2, 0), Offset(-1, 2), Offset(2, -1)],
    [Offset(1, 0), Offset(-2, 0), Offset(1, -2), Offset(-2, 1)],
    [Offset(2, 0), Offset(-1, 0), Offset(2, 1), Offset(-1, -2)],
    [Offset(-2, 0), Offset(1, 0), Offset(-2, -1), Offset(1, 2)],
    [Offset(1, 0), Offset(-2, 0), Offset(1, -2), Offset(-2, 1)],
    [Offset(-1, 0), Offset(2, 0), Offset(-1, 2), Offset(2, -1)]
  ]

  const Kick: seq<seq<Offset>> := [
    [Offset(-1, 0), Offset(-1, 1), Offset(0, -2), Offset(-1, -2)],
    [Offset(1, 0), Offset(1, -1), Offset(0, 2), Offset(1, 2)],
    [Offset(1, 0), Offset(1, -1), Offset(0, 2), Offset(1, 2)],
    [Offset(-1, 0), Offset(-1, 1), Offset(0, -2), Offset(-1, -2)],
    [Offset(1, 0), Offset(1, 1), Offset(0, -2), Offset(1, -2)],
    [Offset(-1, 0), Offset(-1, -1), Offset(0, 2), Offset(-1, 2)],
    [Offset(-1, 0), Offset(-1, -1), Offset(0, 2), Offset(-1, 2)],
    [Offset(1, 0), Offset(1, 1), Offset(0, -2), Offset(1, -2)]
  ]

  /** The four cell offsets of piece `block` in rotation state `rotation`. */
  function Shape(block: nat, rotation: nat): (cells: seq<Offset>)
    requires block < Kinds && rotation < Rotations
    ensures |cells| == 4
    ensures forall i :: 0 <= i < |cells| ==> -1 <= cells[i].dx <= 2 && -1 <= cells[i].dy <= 2
  {
    Shapes[block][rotation]
  }

  /** The kick candidates tried, in order, when rotating out of `rotation`:
      entry `rotation * 2` of the I table for the I piece, of the common table otherwise. */
  function KicksFor(block: nat, rotation: nat): (candidates: seq<Offset>)
    requires block < Kinds && rotation < Rotations
    ensures |candidates| == 4
    ensures forall i :: 0 <= i < |candidates| ==> -2 <= candidates[i].dx <= 2 && -2 <= candidates[i].dy <= 2
  {
    if block == IPiece then IKick[rotation * 2] else Kick[rotation * 2]
  }

  /** The four cells of every shape are pairwise different, so a shape covers exactly four cells. */
  lemma ShapeCellsDistinct(block: nat, rotation: nat)
    requires block < Kinds && rotation < Rotations
    ensures forall i, j :: 0 <= i < j < 4 ==> Shape(block, rotation)[i] != Shape(block, rotation)[j]
  {
  }

  /** All four rotation states of the O piece are the same set of cells. */
  lemma OShapeSymmetric(rotation: nat)
    requires rotation < Rotations
    ensures Shape(OPiece, rotation) == Shape(OPiece, 0)
  {
  }
}
