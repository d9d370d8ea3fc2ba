/** The render engine's visual vocabulary, kept symbolic: a transform is a product of
    primitive terms (identity is the empty product, multiplication is concatenation),
    so that which terms are composed, and in what order, stays observable. */
module Geometry {
  import opened Wrappers

  /** One primitive of the engine's Transform module. Rotation angles are written in
      half-turns (1.0 is pi radians). */
  datatype Prim =
    | Translate(x: real, y: real, z: real)
    | Scale(x: real, y: real, z: real)
    | Rotate(x: real, y: real, z: real)

  type Transform = seq<Prim>

  const Identity: Transform := []

  function Multiply(a: Transform, b: Transform): Transform {
    a + b
  }

  /** A two-dimensional size, `[width, height]`. */
  datatype Size = Size(w: real, h: real)

  /** What a layout reports for a renderable: each part may be undefined. */
  datatype Spec = Spec(transform: Option<Transform>, opacity: Option<real>, size: Option<Size>)

  /** A transform and an opacity, as a modifier holds them. */
  datatype Pose = Pose(transform: Transform, opacity: real)

  /** The pose a shown item comes to rest at. */
  const Rest: Pose := Pose(Identity, 1.0)
}
