/** `ViewStackLayout`, the layout function of the controller's own layout: the calls to
    `context.set` it makes, in order, for the item wrapper nodes and the overlay of
    transfer nodes. */
module StackLayout {
  import opened Geometry
  import opened Transfers

  /** One `context.set(node, {size, translate: [0, 0, z]})`. */
  datatype SetCall = SetCall(node: Node, size: Size, z: real)

  /** The z translation of view `i`: it starts at 0 and grows by `offset` per view. */
  function Depth(i: nat, offset: real): real
  {
    if i == 0 then 0.0 else Depth(i - 1, offset) + offset
  }

  /** The accumulated z of view `i` is `i` steps of the offset. */
  lemma {:induction false} DepthIsProduct(i: nat, offset: real)
    ensures Depth(i, offset) == i as real * offset
  {
    if i > 0 {
      DepthIsProduct(i - 1, offset);
    }
  }

  /** The innermost loop, over the keys of one item's records: one call for overlay
      node `n` per record whose node is `n`. */
  function Matches(n: Node, owned: seq<Node>, size: Size, z: real): (r: seq<SetCall>)
    ensures forall c :: c in r <==> n in owned && c == SetCall(n, size, z)
    decreases |owned|
  {
    if owned == [] then []
    else
      var k := |owned| - 1;
      assert owned == owned[..k] + [owned[k]];
      Matches(n, owned[..k], size, z) + (if owned[k] == n then [SetCall(n, size, z)] else [])
  }

  /** The loop over the overlay for one item: each overlay node is set, at the item's z
      and the full size, once per record of the item that owns it. */
  function OverlayCalls(overlay: seq<Node>, owned: seq<Node>, size: Size, z: real): (r: seq<SetCall>)
    ensures forall c :: c in r <==> c.node in overlay && c.node in owned && c == SetCall(c.node, size, z)
    decreases |overlay|
  {
    if overlay == [] then []
    else
      var k := |overlay| - 1;
      assert overlay == overlay[..k] + [overlay[k]];
      OverlayCalls(overlay[..k], owned, size, z) + Matches(overlay[k], owned, size, z)
  }

  /** The innermost loop of `ViewStackLayout`, over the records of one item. */
  method SetMatches(n: Node, owned: seq<Node>, size: Size, z: real) returns (calls: seq<SetCall>)
    ensures calls == Matches(n, owned, size, z)
  {
    calls := [];
    for k := 0 to |owned|
      invariant calls == Matches(n, owned[..k], size, z)
    {
      assert owned[..k + 1][..k] == owned[..k];
      if owned[k] == n {
        calls := calls + [SetCall(n, size, z)];
      }
    }
    assert owned[..|owned|] == owned;
  }

  /** The loop of `ViewStackLayout` over the overlay, for one item. */
  method SetOverlay(overlay: seq<Node>, owned: seq<Node>, size: Size, z: real) returns (calls: seq<SetCall>)
    ensures calls == OverlayCalls(overlay, owned, size, z)
  {
    calls := [];
    for j := 0 to |overlay|
      invariant calls == OverlayCalls(overlay[..j], owned, size, z)
    {
      assert overlay[..j + 1][..j] == overlay[..j];
      var m := SetMatches(overlay[j], owned, size, z);
      calls := calls + m;
    }
    assert overlay[..|overlay|] == overlay;
  }

  /** The whole layout: view `i` of the stack gets the full size at z `i * offset`,
      followed by the overlay nodes that item `i` owns, at the same z. */
  function Calls(views: seq<Node>, owned: seq<seq<Node>>, overlay: seq<Node>, size: Size, offset: real): (r: seq<SetCall>)
    requires |owned| == |views|
    ensures |r| >= |views|
    decreases |views|
  {
    if views == [] then []
    else
      var n := |views| - 1;
      var z := Depth(n, offset);
      Calls(views[..n], owned[..n], overlay, size, offset) + [SetCall(views[n], size, z)] + OverlayCalls(overlay, owned[n], size, z)
  }

  /** `ViewStackLayout`: the loop over the views, with the z translation growing by the
      offset after each one. */
  method SetAll(views: seq<Node>, owned: seq<seq<Node>>, overlay: seq<Node>, size: Size, offset: real)
    returns (calls: seq<SetCall>)
    requires |owned| == |views|
    ensures calls == Calls(views, owned, overlay, size, offset)
  {
    calls := [];
    var z := 0.0;
    for i := 0 to |views|
      invariant calls == Calls(views[..i], owned[..i], overlay, size, offset)
      invariant z == Depth(i, offset)
    {
      assert views[..i + 1][..i] == views[..i] && owned[..i + 1][..i] == owned[..i];
      var o := SetOverlay(overlay, owned[i], size, z);
      calls := calls + [SetCall(views[i], size, z)] + o;
      z := z + offset;
    }
    assert views[..|views|] == views && owned[..|owned|] == owned;
  }

  /** Call `c` is one that item `i` is entitled to: its view, or an overlay node it owns,
      at the full size and at z `i * offset`. */
  predicate Placed(c: SetCall, views: seq<Node>, owned: seq<seq<Node>>, overlay: seq<Node>, size: Size, offset: real, i: int)
    requires |owned| == |views|
  {
    0 <= i < |views| && c.size == size && c.z == Depth(i, offset) &&
    (c.node == views[i] || (c.node in overlay && c.node in owned[i]))
  }

  /** Every call the layout makes is one some item is entitled to: overlay nodes no item
      owns are never set. */
  lemma {:induction false} CallsSound(views: seq<Node>, owned: seq<seq<Node>>, overlay: seq<Node>, size: Size, offset: real, c: SetCall)
    requires |owned| == |views|
    requires c in Calls(views, owned, overlay, size, offset)
    ensures exists i :: Placed(c, views, owned, overlay, size, offset, i)
    decreases |views|
  {
    var n := |views| - 1;
    var z := Depth(n, offset);
    var front := Calls(views[..n], owned[..n], overlay, size, offset);
    if c in front {
      CallsSound(views[..n], owned[..n], overlay, size, offset, c);
      var i :| Placed(c, views[..n], owned[..n], overlay, size, offset, i);
      assert views[..n][i] == views[i] && owned[..n][i] == owned[i];
      assert Placed(c, views, owned, overlay, size, offset, i);
    } else {
      assert Placed(c, views, owned, overlay, size, offset, n);
    }
  }

  /** Every view is set, and every overlay node an item owns is set at that item's z. */
  lemma {:induction false} CallsComplete(views: seq<Node>, owned: seq<seq<Node>>, overlay: seq<Node>, size: Size, offset: real, i: int, c: SetCall)
    requires |owned| == |views|
    requires Placed(c, views, owned, overlay, size, offset, i)
    ensures c in Calls(views, owned, overlay, size, offset)
    decreases |views|
  {
    var n := |views| - 1;
    var z := Depth(n, offset);
    var front := Calls(views[..n], owned[..n], overlay, size, offset);
    if i < n {
      assert views[..n][i] == views[i] && owned[..n][i] == owned[i];
      CallsComplete(views[..n], owned[..n], overlay, size, offset, i, c);
    } else if c.node != views[n] {
      assert c in OverlayCalls(overlay, owned[n], size, z);
    }
  }

  /** The calls of `calls` whose node is one of `nodes`, in order. */
  function Only(calls: seq<SetCall>, nodes: set<Node>): seq<SetCall>
    decreases |calls|
  {
    if calls == [] then []
    else
      var k := |calls| - 1;
      Only(calls[..k], nodes) + (if calls[k].node in nodes then [calls[k]] else [])
  }

  lemma {:induction false} OnlyAppend(a: seq<SetCall>, b: seq<SetCall>, nodes: set<Node>)
    ensures Only(a + b, nodes) == Only(a, nodes) + Only(b, nodes)
    decreases |b|
  {
    if b == [] {
      assert a + b == a;
    } else {
      var k := |b| - 1;
      assert (a + b)[..|a + b| - 1] == a + b[..k];
      OnlyAppend(a, b[..k], nodes);
    }
  }

  lemma {:induction false} OnlyNone(calls: seq<SetCall>, nodes: set<Node>)
    requires forall c :: c in calls ==> c.node !in nodes
    ensures Only(calls, nodes) == []
    decreases |calls|
  {
    if calls != [] {
      OnlyNone(calls[..|calls| - 1], nodes);
    }
  }

  lemma OverlayNotInNodes(overlay: seq<Node>, owned: seq<Node>, size: Size, z: real, nodes: set<Node>)
    requires forall n :: n in overlay ==> n !in nodes
    ensures Only(OverlayCalls(overlay, owned, size, z), nodes) == []
  {
    OnlyNone(OverlayCalls(overlay, owned, size, z), nodes);
  }

  /** One call per view, in order, view `i` at z `i * offset`. */
  function InStackOrder(views: seq<Node>, size: Size, offset: real): (r: seq<SetCall>)
    ensures |r| == |views|
  {
    seq(|views|, i requires 0 <= i < |views| => SetCall(views[i], size, Depth(i, offset)))
  }

  /** The views are set in stack order, one call each, view `i` at z `i * offset`
      (`nodes` holds the view nodes and none of the overlay's). */
  lemma {:induction false} ViewsInStackOrder(views: seq<Node>, owned: seq<seq<Node>>, overlay: seq<Node>,
                                             size: Size, offset: real, nodes: set<Node>)
    requires |owned| == |views|
    requires forall i :: 0 <= i < |views| ==> views[i] in nodes
    requires forall n :: n in overlay ==> n !in nodes
    ensures Only(Calls(views, owned, overlay, size, offset), nodes) == InStackOrder(views, size, offset)
    decreases |views|
  {
    if views != [] {
      var n := |views| - 1;
      var z := Depth(n, offset);
      var front := Calls(views[..n], owned[..n], overlay, size, offset);
      var tail := OverlayCalls(overlay, owned[n], size, z);
      var last := [SetCall(views[n], size, z)];
      assert Calls(views, owned, overlay, size, offset) == front + last + tail;
      ViewsInStackOrder(views[..n], owned[..n], overlay, size, offset, nodes);
      var wantFront := InStackOrder(views[..n], size, offset);
      assert Only(front + last + tail, nodes) == wantFront + last by {
        OnlyAppend(front + last, tail, nodes);
        OnlyAppend(front, last, nodes);
        assert Only(last, nodes) == last by {
          assert last[..0] == [];
        }
        OverlayNotInNodes(overlay, owned[n], size, z, nodes);
      }
      InStackOrderSnoc(views, size, offset);
    }
  }

  /** The expected calls for a non-empty stack are those of the stack without its top
      view, then the top view's call. */
  lemma InStackOrderSnoc(views: seq<Node>, size: Size, offset: real)
    requires views != []
    ensures InStackOrder(views, size, offset)
         == InStackOrder(views[..|views| - 1], size, offset) + [SetCall(views[|views| - 1], size, Depth(|views| - 1, offset))]
  {
  }
}
