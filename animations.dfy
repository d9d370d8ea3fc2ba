/** The animation table `AnimationController.animations` and the way `_startAnimation`
    composes the animations of one option set into a single transform and opacity. */
module Animations {
  import opened Wrappers
  import opened Geometry

  /** The value of one key of an `animations` option object, tagged with its key. */
  datatype Animation =
    | Slide(direction: string)
    | Fade(opacity: real)
    | Zoom(x: real, y: real)
    | Flip(direction: string)

  /** An `animations` option object: its entries in key order. `None` is a key whose
      value is `undefined`. */
  type AnimationSet = seq<Option<Animation>>

  /** What one animation function returns: `{transform: ...}` or `{opacity: ...}`. */
  datatype Effect = Effect(transform: Option<Transform>, opacity: Option<real>)

  /** The four directions `slide` and `flip` understand. */
  predicate IsDirection(d: string) {
    d == "left" || d == "right" || d == "up" || d == "down"
  }

  /** One entry of the table: the effect of animation `a` when showing (`show`) or
      hiding inside a context of size `size`; `None` is an `undefined` return. */
  function Apply(show: bool, a: Animation, size: Size): (r: Option<Effect>)
    ensures r.None? <==> (a.Slide? || a.Flip?) && !IsDirection(a.direction)
    ensures r.Some? ==> (r.value.opacity.Some? <==> a.Fade?) && (r.value.transform.Some? <==> !a.Fade?)
    ensures r.Some? && r.value.transform.Some? ==> |r.value.transform.value| == 1
  {
    match a
    case Slide(d) =>
      if d == "left" then Some(Effect(Some([Translate(if show then size.w else -size.w, 0.0, 0.0)]), None))
      else if d == "right" then Some(Effect(Some([Translate(if show then -size.w else size.w, 0.0, 0.0)]), None))
      else if d == "up" then Some(Effect(Some([Translate(0.0, if show then size.h else -size.h, 0.0)]), None))
      else if d == "down" then Some(Effect(Some([Translate(0.0, if show then -size.h else size.h, 0.0)]), None))
      else None
    case Fade(v) => Some(Effect(None, Some(v)))
    case Zoom(x, y) => Some(Effect(Some([Scale(x, y, 1.0)]), None))
    case Flip(d) =>
      if d == "left" then Some(Effect(Some([Rotate(0.0, if show then 1.0 else -1.0, 0.0)]), None))
      else if d == "right" then Some(Effect(Some([Rotate(0.0, if show then -1.0 else 1.0, 0.0)]), None))
      else if d == "up" then Some(Effect(Some([Rotate(if show then 1.0 else -1.0, 0.0, 0.0)]), None))
      else if d == "down" then Some(Effect(Some([Rotate(if show then -1.0 else 1.0, 0.0, 0.0)]), None))
      else None
  }

  /** The opposite motion of a translation or rotation term. */
  function Opposite(p: Prim): Prim {
    match p
    case Translate(x, y, z) => Translate(-x, -y, -z)
    case Rotate(x, y, z) => Rotate(-x, -y, -z)
    case Scale(x, y, z) => Scale(x, y, z)
  }

  function OppositeAll(t: Transform): (r: Transform)
    ensures |r| == |t| && forall i :: 0 <= i < |t| ==> r[i] == Opposite(t[i])
  {
    seq(|t|, i requires 0 <= i < |t| => Opposite(t[i]))
  }

  /** The transform an entry contributes: its effect's transform, or nothing. */
  function TransformTerm(show: bool, e: Option<Animation>, size: Size): Transform {
    if e.Some? then
      var r := Apply(show, e.value, size);
      if r.Some? && r.value.transform.Some? then r.value.transform.value else Identity
    else Identity
  }

  /** The opacity factor an entry contributes: its effect's opacity, or 1. */
  function OpacityTerm(show: bool, e: Option<Animation>, size: Size): real {
    if e.Some? then
      var r := Apply(show, e.value, size);
      if r.Some? && r.value.opacity.Some? then r.value.opacity.value else 1.0
    else 1.0
  }

  /** The left-to-right product, starting at identity, of the entries' transforms. */
  function ComposedTransform(show: bool, anims: AnimationSet, size: Size): Transform
    decreases |anims|
  {
    if anims == [] then Identity
    else Multiply(ComposedTransform(show, anims[..|anims| - 1], size), TransformTerm(show, anims[|anims| - 1], size))
  }

  /** The product, starting at 1, of the entries' opacities. */
  function ComposedOpacity(show: bool, anims: AnimationSet, size: Size): real
    decreases |anims|
  {
    if anims == [] then 1.0
    else ComposedOpacity(show, anims[..|anims| - 1], size) * OpacityTerm(show, anims[|anims| - 1], size)
  }

  function Composed(show: bool, anims: AnimationSet, size: Size): Pose {
    Pose(ComposedTransform(show, anims, size), ComposedOpacity(show, anims, size))
  }

  /** The loop of `_startAnimation` that walks the option set in key order and
      accumulates the transform and the opacity of every defined result. */
  method Compose(show: bool, anims: AnimationSet, size: Size) returns (p: Pose)
    ensures p == Composed(show, anims, size)
  {
    var transform := Identity;
    var opacity := 1.0;
    for i := 0 to |anims|
      invariant transform == ComposedTransform(show, anims[..i], size)
      invariant opacity == ComposedOpacity(show, anims[..i], size)
    {
      if anims[i].Some? {
        var result := Apply(show, anims[i].value, size);
        if result.Some? && result.value.transform.Some? {
          transform := Multiply(transform, result.value.transform.value);
        }
        if result.Some? && result.value.opacity.Some? {
          opacity := opacity * result.value.opacity.value;
        }
      }
      assert anims[..i + 1][..i] == anims[..i];
    }
    assert anims[..|anims|] == anims;
    p := Pose(transform, opacity);
  }

  /** Composition distributes over concatenation of option sets: the transform of
      `a + b` is that of `a` followed by that of `b`. */
  lemma {:induction false} TransformAppend(show: bool, a: AnimationSet, b: AnimationSet, size: Size)
    ensures ComposedTransform(show, a + b, size) == ComposedTransform(show, a, size) + ComposedTransform(show, b, size)
    decreases |b|
  {
    if b == [] {
      assert a + b == a;
    } else {
      var b' := b[..|b| - 1];
      assert (a + b)[..|a + b| - 1] == a + b';
      assert (a + b)[|a + b| - 1] == b[|b| - 1];
      TransformAppend(show, a, b', size);
    }
  }

  /** An entry whose result is undefined (an `undefined` value, or a slide or flip in a
      direction other than left, right, up and down) changes neither the transform nor
      the opacity, wherever it stands. */
  lemma {:induction false} Neutral(show: bool, a: AnimationSet, e: Option<Animation>, b: AnimationSet, size: Size)
    requires e.None? || ((e.value.Slide? || e.value.Flip?) && !IsDirection(e.value.direction))
    ensures Composed(show, a + [e] + b, size) == Composed(show, a + b, size)
    decreases |b|
  {
    if b == [] {
      assert a + [e] + b == a + [e] && a + b == a;
      NeutralLast(show, a, e, size);
    } else {
      var b' := b[..|b| - 1];
      Neutral(show, a, e, b', size);
      var l, r := a + [e] + b, a + b;
      assert l[..|l| - 1] == a + [e] + b' && l[|l| - 1] == b[|b| - 1];
      assert r[..|r| - 1] == a + b' && r[|r| - 1] == b[|b| - 1];
    }
  }

  /** An entry whose result is undefined, placed last, changes nothing. */
  lemma NeutralLast(show: bool, a: AnimationSet, e: Option<Animation>, size: Size)
    requires e.None? || ((e.value.Slide? || e.value.Flip?) && !IsDirection(e.value.direction))
    ensures ComposedTransform(show, a + [e], size) == ComposedTransform(show, a, size)
    ensures ComposedOpacity(show, a + [e], size) == ComposedOpacity(show, a, size)
  {
    var ae := a + [e];
    assert ae[..|ae| - 1] == a && ae[|ae| - 1] == e;
    assert TransformTerm(show, e, size) == Identity && OpacityTerm(show, e, size) == 1.0 by {
      if e.Some? { assert Apply(show, e.value, size).None?; }
    }
  }

  /** For each direction, a slide or a flip hides with exactly the opposite motion to the
      one it shows with. */
  lemma {:induction false} HideIsOppositeOfShow(anims: AnimationSet, size: Size)
    requires forall i :: 0 <= i < |anims| && anims[i].Some? ==> anims[i].value.Slide? || anims[i].value.Flip?
    ensures ComposedTransform(false, anims, size) == OppositeAll(ComposedTransform(true, anims, size))
    ensures ComposedOpacity(false, anims, size) == ComposedOpacity(true, anims, size) == 1.0
    decreases |anims|
  {
    if anims != [] {
      HideIsOppositeOfShow(anims[..|anims| - 1], size);
      var last := anims[|anims| - 1];
      assert TransformTerm(false, last, size) == OppositeAll(TransformTerm(true, last, size));
    }
  }
}
