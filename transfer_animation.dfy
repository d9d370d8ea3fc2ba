/** What happens to a transfer's node once it is in the overlay: `_waitForSettledSpec`
    polls the new view for the target's spec, and `_animateTransferable` then animates
    the node's modifier from the source spec towards the target spec. */
module TransferAnimation {
  import opened Wrappers
  import opened Geometry

  /** The calls `_animateTransferable` makes on the node's modifier: each part is either
      left alone (`None`) or animated towards the given value. */
  datatype ModTargets = ModTargets(transform: Option<Transform>, opacity: Option<real>, size: Option<Size>)

  /** The spec a modifier started at `source` comes to rest at once `m` has settled. */
  function Landing(source: Spec, m: ModTargets): Spec {
    Spec(Or(m.transform, source.transform), Or(m.opacity, source.opacity), Or(m.size, source.size))
  }

  /** `_animateTransferable`: a part is animated exactly when the source or the target
      spec defines it. The node then lands on the target's value of every part the
      target defines; a part only the source defines lands on the identity transform,
      on opacity 1, and on the source's own size. */
  function AnimateTargets(source: Spec, target: Spec): (m: ModTargets)
    ensures m.transform.Some? <==> source.transform.Some? || target.transform.Some?
    ensures m.opacity.Some? <==> source.opacity.Some? || target.opacity.Some?
    ensures m.size.Some? <==> source.size.Some? || target.size.Some?
    ensures var end := Landing(source, m);
      && (target.transform.Some? ==> end.transform == target.transform)
      && (target.opacity.Some? ==> end.opacity == target.opacity)
      && (target.size.Some? ==> end.size == target.size)
      && (target.transform.None? && source.transform.Some? ==> end.transform == Some(Identity))
      && (target.opacity.None? && source.opacity.Some? ==> end.opacity == Some(1.0))
      && (target.size.None? ==> end.size == source.size)
  {
    ModTargets(
      if source.transform.Some? || target.transform.Some? then Some(target.transform.GetOr(Identity)) else None,
      if source.opacity.Some? || target.opacity.Some? then Some(target.opacity.GetOr(1.0)) else None,
      if source.size.Some? || target.size.Some? then Or(target.size, source.size) else None)
  }

  /** What one run of `_waitForSettledSpec` does. */
  datatype PollResult = Waiting | Cleared | Fired(spec: Spec)

  /** One run of `_waitForSettledSpec`: `alive` says whether `item.view` is still set,
      `spec` is what the new view's layout reports for the target id. */
  function PollOnce(alive: bool, spec: Option<Spec>): (r: PollResult)
    ensures r.Cleared? <==> !alive
    ensures r.Fired? <==> alive && spec.Some?
    ensures r.Fired? ==> r.spec == spec.value
  {
    if !alive then Cleared
    else if spec.Some? then Fired(spec.value)
    else Waiting
  }

  /** What the timer sees on one frame. */
  datatype Frame = Frame(alive: bool, spec: Option<Spec>)

  /** The specs a registered wait hands to its callback over successive frames; it
      stops being called once it has cleared itself. */
  function Callbacks(frames: seq<Frame>): seq<Spec>
    decreases |frames|
  {
    if frames == [] then []
    else match PollOnce(frames[0].alive, frames[0].spec)
      case Waiting => Callbacks(frames[1..])
      case Cleared => []
      case Fired(s) => [s]
  }

  /** The wait settles with `s` at frame `k`: the view was alive and without a spec on
      every earlier frame, and alive with spec `s` at frame `k`. */
  predicate SettlesAt(frames: seq<Frame>, k: nat, s: Spec) {
    k < |frames| && frames[k] == Frame(true, Some(s)) &&
    forall j :: 0 <= j < k ==> frames[j] == Frame(true, None)
  }

  /** A wait calls back at most once, and it calls back with `s` exactly when `s` is the
      first spec reported while the view is alive; a view cleared first means no call. */
  lemma {:induction false} CallsBackOnce(frames: seq<Frame>, s: Spec)
    ensures |Callbacks(frames)| <= 1
    ensures Callbacks(frames) == [s] <==> exists k: nat :: SettlesAt(frames, k, s)
    decreases |frames|
  {
    if frames != [] {
      CallsBackOnce(frames[1..], s);
      match PollOnce(frames[0].alive, frames[0].spec)
      case Waiting =>
        if exists k: nat :: SettlesAt(frames[1..], k, s) {
          var k: nat :| SettlesAt(frames[1..], k, s);
          assert forall j :: 1 <= j <= k + 1 ==> frames[j] == frames[1..][j - 1];
          assert SettlesAt(frames, k + 1, s);
        }
        if exists k: nat :: SettlesAt(frames, k, s) {
          var k: nat :| SettlesAt(frames, k, s);
          assert k != 0;
          assert forall j :: 0 <= j < k - 1 ==> frames[1..][j] == frames[j + 1];
          assert SettlesAt(frames[1..], k - 1, s);
        }
      case Cleared =>
      case Fired(t) =>
        if s == t {
          assert SettlesAt(frames, 0, s);
        }
    }
  }
}
