/** The `Transform` enumeration of lib/Transform.ts. */
module Transforms {
  datatype Transform =
    | Identity | FlipX | FlipY | Rotate90 | Rotate180 | Rotate270 | Transpose | OppositeTranspose
    | TileX | TileY | Tile | PingPongX | PingPongY | PingPong | Rotation

  /** The eight symmetries of the square; the other members describe infinite images. */
  predicate IsSymmetry(t: Transform)
  {
    t.Identity? || t.FlipX? || t.FlipY? || t.Rotate90? || t.Rotate180? || t.Rotate270?
    || t.Transpose? || t.OppositeTranspose?
  }

  /** The symmetries that keep width and height in place (no axis swap). */
  predicate KeepsAxes(t: Transform)
  {
    t.Identity? || t.FlipX? || t.FlipY? || t.Rotate180?
  }
}
