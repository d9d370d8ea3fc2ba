/** The transfer hand-off of `_startTransferableAnimations` and
    `_endTransferableAnimations`, stated on values: the slots of the views involved,
    the controller's overlay of transfer nodes and an item's transfer records. The
    controller's methods are proved to follow these functions; the round trip is proved
    here. */
module Transfers {
  import opened Wrappers
  import opened Geometry
  import opened ItemOptions

  /** A render node the controller creates (an item's wrapper node or a transfer's node).
      Only its identity matters; fresh nodes come from a counter. */
  datatype Node = Node(id: nat)

  /** What a slot of a view's layout can hold. */
  datatype Renderable =
    | Content(name: nat)       // one of the view's own renderables
    | Snapshot(spec: Spec)     // the static stand-in `new RenderNode(new Modifier(sourceSpec))`
    | Faded(inner: Renderable) // a node with opacity 0 that holds the target renderable

  /** The slots of several views' layouts, keyed by (view, id). */
  type Layouts<V(==)> = map<(V, SlotId), Renderable>

  /** `view.layout.get(id)`. */
  function Get<V(==)>(l: Layouts<V>, v: V, id: SlotId): Option<Renderable> {
    if (v, id) in l then Some(l[(v, id)]) else None
  }

  /** `view.layout.replace(id, r)`; replacing with `undefined` empties the slot. */
  function Put<V(==)>(l: Layouts<V>, v: V, id: SlotId, r: Option<Renderable>): (l': Layouts<V>)
    ensures Get(l', v, id) == r
    ensures l' - {(v, id)} == l - {(v, id)}
  {
    if r.Some? then l[(v, id) := r.value] else l - {(v, id)}
  }

  /** One entry of `item.transferables`. The node's own content (the z lift by
      `transfer.zIndex` and the modifier started at the source spec) is kept with it. */
  datatype Transfer<V> = Transfer(
    renderNode: Node,
    lift: Option<real>,
    sourceSpec: Spec,
    sourceId: SlotId,
    sourceView: V,
    sourceRenderable: Option<Renderable>,
    targetId: SlotId,
    targetRenderable: Option<Renderable>)

  /** A wait for the target's spec, as registered with the timer: once the spec has
      settled, the transfer node's modifier animates from the source spec to it. */
  datatype Wait = Wait(node: Node, targetId: SlotId, sourceSpec: Spec)

  /** What a transfer touches outside the item: the views' slots and the overlay. */
  datatype Scene<V(==)> = Scene(layouts: Layouts<V>, overlay: seq<Node>)

  /** The state `_startTransferableAnimations` works on. */
  datatype Progress<V(==)> = Progress(scene: Scene<V>, records: seq<Transfer<V>>, next: nat, waits: seq<Wait>)

  /** `item.transferables[t.targetId] = t`. Target ids are names of renderables, not
      integer-like keys, so the object's keys keep their first insertion order: an
      existing record for the same target is overwritten in place. */
  function Record<V(==)>(rs: seq<Transfer<V>>, t: Transfer<V>): (r: seq<Transfer<V>>)
    ensures (forall i :: 0 <= i < |rs| ==> rs[i].targetId != t.targetId) ==> r == rs + [t]
    ensures forall x :: x in r ==> x in rs || x == t
  {
    if rs == [] then [t]
    else if rs[0].targetId == t.targetId then [t] + rs[1..]
    else
      assert forall i :: 1 <= i < |rs| ==> rs[1..][i - 1] == rs[i];
      [rs[0]] + Record(rs[1..], t)
  }

  /** With a record for the same target at `i` (the first such), `Record` overwrites
      that one in place. */
  lemma {:induction false} RecordOverwrites<V>(rs: seq<Transfer<V>>, t: Transfer<V>, i: nat)
    requires i < |rs| && rs[i].targetId == t.targetId
    requires forall j :: 0 <= j < i ==> rs[j].targetId != t.targetId
    ensures Record(rs, t) == rs[i := t]
    decreases i
  {
    if i > 0 {
      RecordOverwrites(rs[1..], t, i - 1);
      assert rs[i := t] == [rs[0]] + rs[1..][i - 1 := t];
    }
  }

  /** The index of the first occurrence of `x` in `s` (`indexOf`). */
  function FirstIndex<T(==)>(s: seq<T>, x: T): (i: nat)
    requires x in s
    ensures i < |s| && s[i] == x && x !in s[..i]
  {
    if s[0] == x then 0
    else
      var i := FirstIndex(s[1..], x) + 1;
      assert s[..i] == [s[0]] + s[1..][..i - 1];
      i
  }

  /** An index holding `x` with no `x` before it is the first index of `x`. */
  lemma FirstIndexIs<T>(s: seq<T>, x: T, i: nat)
    requires i < |s| && s[i] == x && x !in s[..i]
    ensures FirstIndex(s, x) == i
  {
  }

  /** The removal loop of `_endTransferableAnimations`: the first occurrence of `x`
      goes, and nothing else changes. */
  function RemoveFirst(s: seq<Node>, x: Node): (r: seq<Node>)
    ensures x !in s ==> r == s
    ensures x in s ==> r == s[..FirstIndex(s, x)] + s[FirstIndex(s, x) + 1..]
  {
    if s == [] then []
    else if s[0] == x then s[1..]
    else
      var t := s[1..];
      var r := [s[0]] + RemoveFirst(t, x);
      if x in s then
        assert x in t;
        RemoveFirstCons(s, x);
        r
      else
        assert s == [s[0]] + t;
        r
  }

  /** Removing around the first `x` of `s`, when `s` does not start with `x`, keeps
      the head and removes around the first `x` of the tail. */
  lemma RemoveFirstCons(s: seq<Node>, x: Node)
    requires s != [] && s[0] != x && x in s[1..]
    ensures FirstIndex(s, x) == FirstIndex(s[1..], x) + 1
    ensures s[..FirstIndex(s, x)] + s[FirstIndex(s, x) + 1..]
         == [s[0]] + (s[1..][..FirstIndex(s[1..], x)] + s[1..][FirstIndex(s[1..], x) + 1..])
  {
    var t, k := s[1..], FirstIndex(s[1..], x);
    assert s[..k + 1] == [s[0]] + t[..k];
    assert s[k + 2..] == t[k + 1..];
  }

  /** The record one accepted pair creates: the node is the next fresh one, and the
      record remembers what the source and the target slots held before. */
  function NewRecord<V(==)>(p: Progress<V>, prev: V, cur: V, spec: Spec,
                            sourceId: SlotId, targetId: SlotId, zIndex: Option<real>): Transfer<V> {
    var source := Get(p.scene.layouts, prev, sourceId);
    var original := Get(Put(p.scene.layouts, prev, sourceId, Some(Snapshot(spec))), cur, targetId);
    Transfer(Node(p.next), zIndex, spec, sourceId, prev, source, targetId, original)
  }

  /** One iteration of `_startTransferableAnimations`, for the pair (`sourceId`,
      `targetId`): it acts only when the previous view has a spec for the source and the
      new view has a renderable for the target. It then puts a snapshot of the source
      in the previous view, hides the target under an opacity-0 node, records both
      original renderables, appends a fresh node to the overlay and registers a wait. */
  function StartPair<V(==)>(p: Progress<V>, prev: V, cur: V, prevSpecs: map<SlotId, Spec>,
                            pair: (SlotId, SlotId), zIndex: Option<real>): (q: Progress<V>)
    ensures var (sourceId, targetId) := pair;
      if sourceId in prevSpecs && Get(p.scene.layouts, cur, targetId).Some? then
        var t := NewRecord(p, prev, cur, prevSpecs[sourceId], sourceId, targetId, zIndex);
        && q.next == p.next + 1
        && q.scene.overlay == p.scene.overlay + [t.renderNode]
        && q.waits == p.waits + [Wait(Node(p.next), targetId, prevSpecs[sourceId])]
        && q.records == Record(p.records, t)
        && Get(q.scene.layouts, cur, targetId) == Some(Faded(Get(p.scene.layouts, cur, targetId).value))
        && ((prev, sourceId) != (cur, targetId) ==>
              && Get(q.scene.layouts, prev, sourceId) == Some(Snapshot(prevSpecs[sourceId]))
              && t.targetRenderable == Get(p.scene.layouts, cur, targetId))
        && ((prev, sourceId) == (cur, targetId) ==> t.targetRenderable == Some(Snapshot(prevSpecs[sourceId])))
        && q.scene.layouts - {(prev, sourceId), (cur, targetId)} == p.scene.layouts - {(prev, sourceId), (cur, targetId)}
      else q == p
  {
    var (sourceId, targetId) := pair;
    var target := Get(p.scene.layouts, cur, targetId);
    if sourceId in prevSpecs && target.Some? then
      var spec := prevSpecs[sourceId];
      var l1 := Put(p.scene.layouts, prev, sourceId, Some(Snapshot(spec)));
      var l2 := Put(l1, cur, targetId, Some(Faded(target.value)));
      var t := NewRecord(p, prev, cur, spec, sourceId, targetId, zIndex);
      Progress(Scene(l2, p.scene.overlay + [t.renderNode]), Record(p.records, t), p.next + 1, p.waits + [Wait(t.renderNode, targetId, spec)])
    else p
  }

  /** The state an accepted pair leaves, written out. */
  lemma StartPairTaken<V>(p: Progress<V>, prev: V, cur: V, prevSpecs: map<SlotId, Spec>,
                          pair: (SlotId, SlotId), zIndex: Option<real>)
    requires pair.0 in prevSpecs && Get(p.scene.layouts, cur, pair.1).Some?
    ensures var spec := prevSpecs[pair.0];
      var l1 := Put(p.scene.layouts, prev, pair.0, Some(Snapshot(spec)));
      var l2 := Put(l1, cur, pair.1, Some(Faded(Get(p.scene.layouts, cur, pair.1).value)));
      var t := NewRecord(p, prev, cur, spec, pair.0, pair.1, zIndex);
      StartPair(p, prev, cur, prevSpecs, pair, zIndex)
        == Progress(Scene(l2, p.scene.overlay + [t.renderNode]), Record(p.records, t), p.next + 1,
                    p.waits + [Wait(t.renderNode, pair.1, spec)])
  {
  }

  /** `_startTransferableAnimations` over the pairs of `transfer.items`, in key order.
      The overlay and the waits only grow, by one fresh node and one wait per accepted
      pair, and the fresh nodes are taken from the counter in order. */
  function StartAll<V(==)>(p: Progress<V>, prev: V, cur: V, prevSpecs: map<SlotId, Spec>,
                       items: TransferItems, zIndex: Option<real>): (q: Progress<V>)
    ensures q.next >= p.next
    ensures p.scene.overlay <= q.scene.overlay && p.waits <= q.waits
    ensures |q.scene.overlay| - |p.scene.overlay| == |q.waits| - |p.waits| == q.next - p.next
    ensures forall k :: |p.scene.overlay| <= k < |q.scene.overlay| ==> q.scene.overlay[k] == Node(p.next + k - |p.scene.overlay|)
    decreases |items|
  {
    if items == [] then p
    else StartPair(StartAll(p, prev, cur, prevSpecs, items[..|items| - 1], zIndex), prev, cur, prevSpecs, items[|items| - 1], zIndex)
  }

  /** The pairs up to `i + 1` are those up to `i` followed by pair `i`. */
  lemma StartAllStep<V>(p: Progress<V>, prev: V, cur: V, prevSpecs: map<SlotId, Spec>,
                        items: TransferItems, i: nat, zIndex: Option<real>)
    requires i < |items|
    ensures StartAll(p, prev, cur, prevSpecs, items[..i + 1], zIndex)
         == StartPair(StartAll(p, prev, cur, prevSpecs, items[..i], zIndex), prev, cur, prevSpecs, items[i], zIndex)
  {
    assert items[..i + 1][..i] == items[..i];
  }

  /** The slots of views `a` and `b` only. */
  function Restrict<V(==)>(l: Layouts<V>, a: V, b: V): Layouts<V> {
    map k | k in l && (k.0 == a || k.0 == b) :: l[k]
  }

  /** The slots of every view but `a` and `b`. */
  function Outside<V(==)>(l: Layouts<V>, a: V, b: V): Layouts<V> {
    map k | k in l && k.0 != a && k.0 != b :: l[k]
  }

  /** The progress `p` seen through the slots of views `a` and `b` only. */
  function Restricted<V(==)>(p: Progress<V>, a: V, b: V): Progress<V> {
    p.(scene := p.scene.(layouts := Restrict(p.scene.layouts, a, b)))
  }

  /** Layouts are determined by their slots in two views and their slots elsewhere. */
  lemma RestrictOutsideExt<V>(l1: Layouts<V>, l2: Layouts<V>, a: V, b: V)
    requires Restrict(l1, a, b) == Restrict(l2, a, b) && Outside(l1, a, b) == Outside(l2, a, b)
    ensures l1 == l2
  {
    forall k | k in l1 ensures k in l2 && l1[k] == l2[k] {
      if k.0 == a || k.0 == b {
        assert k in Restrict(l1, a, b);
      } else {
        assert k in Outside(l1, a, b);
      }
    }
    forall k | k in l2 ensures k in l1 {
      if k.0 == a || k.0 == b {
        assert k in Restrict(l2, a, b);
      } else {
        assert k in Outside(l2, a, b);
      }
    }
  }

  /** A `replace` in view `a` or `b` acts on their slots alone and leaves the others. */
  lemma RestrictPut<V>(l: Layouts<V>, a: V, b: V, v: V, id: SlotId, r: Option<Renderable>)
    requires v == a || v == b
    ensures Restrict(Put(l, v, id, r), a, b) == Put(Restrict(l, a, b), v, id, r)
    ensures Outside(Put(l, v, id, r), a, b) == Outside(l, a, b)
    ensures Get(Restrict(l, a, b), v, id) == Get(l, v, id)
  {
    var l' := Put(l, v, id, r);
    var x, y := Restrict(l', a, b), Put(Restrict(l, a, b), v, id, r);
    forall k | k in x ensures k in y && x[k] == y[k] {
      if k != (v, id) {
        assert k in Restrict(l, a, b);
      }
    }
    forall k | k in y ensures k in x {
      if k != (v, id) {
        assert k in Restrict(l, a, b);
      }
    }
    if (v, id) in l {
      assert (v, id) in Restrict(l, a, b);
    }
  }

  /** One pair started on the slots of all views, seen through the two views it
      works on, is the pair started on those two views' slots alone; the other views'
      slots do not change. */
  lemma StartPairRestrict<V>(p: Progress<V>, prev: V, cur: V, prevSpecs: map<SlotId, Spec>,
                             pair: (SlotId, SlotId), zIndex: Option<real>)
    ensures StartPair(Restricted(p, prev, cur), prev, cur, prevSpecs, pair, zIndex)
         == Restricted(StartPair(p, prev, cur, prevSpecs, pair, zIndex), prev, cur)
    ensures Outside(StartPair(p, prev, cur, prevSpecs, pair, zIndex).scene.layouts, prev, cur)
         == Outside(p.scene.layouts, prev, cur)
  {
    var (sourceId, targetId) := pair;
    var l := p.scene.layouts;
    RestrictPut(l, prev, cur, cur, targetId, None);
    if sourceId in prevSpecs && Get(l, cur, targetId).Some? {
      var spec := prevSpecs[sourceId];
      var l1 := Put(l, prev, sourceId, Some(Snapshot(spec)));
      RestrictPut(l, prev, cur, prev, sourceId, Some(Snapshot(spec)));
      RestrictPut(l1, prev, cur, cur, targetId, Some(Faded(Get(l, cur, targetId).value)));
    }
  }

  /** `StartAll` on the slots of all views, seen through the two views it works on, is
      `StartAll` on those two views' slots alone; the other views' slots do not change. */
  lemma {:induction false} StartAllRestrict<V>(p: Progress<V>, prev: V, cur: V, prevSpecs: map<SlotId, Spec>,
                                               items: TransferItems, zIndex: Option<real>)
    ensures StartAll(Restricted(p, prev, cur), prev, cur, prevSpecs, items, zIndex)
         == Restricted(StartAll(p, prev, cur, prevSpecs, items, zIndex), prev, cur)
    ensures Outside(StartAll(p, prev, cur, prevSpecs, items, zIndex).scene.layouts, prev, cur)
         == Outside(p.scene.layouts, prev, cur)
    decreases |items|
  {
    if items != [] {
      var items' := items[..|items| - 1];
      StartAllRestrict(p, prev, cur, prevSpecs, items', zIndex);
      StartPairRestrict(StartAll(p, prev, cur, prevSpecs, items', zIndex), prev, cur, prevSpecs, items[|items| - 1], zIndex);
    }
  }

  /** Every record was taken from view `v`. */
  predicate FromOneView<V(==)>(rs: seq<Transfer<V>>, v: V) {
    forall t :: t in rs ==> t.sourceView == v
  }

  /** One iteration of `_endTransferableAnimations`: drop the record's node from the
      overlay and put both original renderables back where they were taken from. */
  function EndOne<V(==)>(s: Scene<V>, cur: V, t: Transfer<V>): Scene<V> {
    var l := Put(s.layouts, t.sourceView, t.sourceId, t.sourceRenderable);
    Scene(Put(l, cur, t.targetId, t.targetRenderable), RemoveFirst(s.overlay, t.renderNode))
  }

  /** `_endTransferableAnimations` over an item's records, in key order. */
  function EndAll<V(==)>(s: Scene<V>, cur: V, rs: seq<Transfer<V>>): Scene<V>
    decreases |rs|
  {
    if rs == [] then s else EndAll(EndOne(s, cur, rs[0]), cur, rs[1..])
  }

  /** Ending one record gives the target slot the target's original and the source
      slot the source's original (unless it is that same slot), changes no other slot,
      and takes one occurrence of the record's node out of the overlay. */
  lemma EndOneRestores<V>(s: Scene<V>, cur: V, t: Transfer<V>)
    ensures var r := EndOne(s, cur, t);
      && Get(r.layouts, cur, t.targetId) == t.targetRenderable
      && ((t.sourceView, t.sourceId) != (cur, t.targetId) ==> Get(r.layouts, t.sourceView, t.sourceId) == t.sourceRenderable)
      && r.layouts - {(t.sourceView, t.sourceId), (cur, t.targetId)} == s.layouts - {(t.sourceView, t.sourceId), (cur, t.targetId)}
      && multiset(r.overlay) == multiset(s.overlay) - multiset{t.renderNode}
  {
    var k1, k2 := (t.sourceView, t.sourceId), (cur, t.targetId);
    var l1 := Put(s.layouts, t.sourceView, t.sourceId, t.sourceRenderable);
    var l2 := Put(l1, cur, t.targetId, t.targetRenderable);
    assert {k1, k2} == {k2} + {k1} == {k1} + {k2};
    calc {
      l2 - {k1, k2};
      { MinusTwice(l2, {k2}, {k1}); }
      l2 - {k2} - {k1};
      l1 - {k2} - {k1};
      { MinusTwice(l1, {k2}, {k1}); MinusTwice(l1, {k1}, {k2}); }
      l1 - {k1} - {k2};
      s.layouts - {k1} - {k2};
      { MinusTwice(s.layouts, {k1}, {k2}); }
      s.layouts - {k1, k2};
    }
    if k1 != k2 {
      assert k1 in l2 <==> k1 in l2 - {k2};
      assert k1 in l1 <==> k1 in l1 - {k2};
    }
    RemoveFirstCount(s.overlay, t.renderNode);
  }

  /** Ending records `rs` changes no slot that none of them was taken from. */
  lemma {:induction false} EndAllKeeps<V>(s: Scene<V>, cur: V, rs: seq<Transfer<V>>)
    ensures EndAll(s, cur, rs).layouts - Touched(rs, cur) == s.layouts - Touched(rs, cur)
    decreases |rs|
  {
    if rs != [] {
      var s1 := EndOne(s, cur, rs[0]);
      var t0, t1 := {(rs[0].sourceView, rs[0].sourceId), (cur, rs[0].targetId)}, Touched(rs[1..], cur);
      var r := EndAll(s1, cur, rs[1..]);
      EndAllKeeps(s1, cur, rs[1..]);
      EndOneRestores(s, cur, rs[0]);
      TouchedCons(rs, cur);
      calc {
        r.layouts - (t0 + t1);
        { MinusTwice(r.layouts, t1, t0); }
        r.layouts - t1 - t0;
        s1.layouts - t1 - t0;
        { MinusTwice(s1.layouts, t1, t0); MinusTwice(s1.layouts, t0, t1); }
        s1.layouts - t0 - t1;
        s.layouts - t0 - t1;
        { MinusTwice(s.layouts, t0, t1); }
        s.layouts - (t0 + t1);
      }
    }
  }

  /** Ending records `rs` takes one occurrence of each record's node out of the overlay. */
  lemma {:induction false} EndAllNodes<V>(s: Scene<V>, cur: V, rs: seq<Transfer<V>>)
    ensures multiset(EndAll(s, cur, rs).overlay) == multiset(s.overlay) - multiset(RecordNodes(rs))
    decreases |rs|
  {
    if rs != [] {
      var s1 := EndOne(s, cur, rs[0]);
      EndAllNodes(s1, cur, rs[1..]);
      RemoveFirstCount(s.overlay, rs[0].renderNode);
      assert RecordNodes(rs) == [rs[0].renderNode] + RecordNodes(rs[1..]);
    }
  }

  lemma TouchedCons<V>(rs: seq<Transfer<V>>, cur: V)
    requires rs != []
    ensures Touched(rs, cur) == {(rs[0].sourceView, rs[0].sourceId), (cur, rs[0].targetId)} + Touched(rs[1..], cur)
  {
    assert forall x :: x in rs <==> x == rs[0] || x in rs[1..];
  }

  /** The slots records `rs` were taken from: their source slots and their target
      slots in `cur`. */
  function Touched<V(==)>(rs: seq<Transfer<V>>, cur: V): set<(V, SlotId)> {
    (set x | x in rs :: (x.sourceView, x.sourceId)) + (set x | x in rs :: (cur, x.targetId))
  }

  /** The nodes of records `rs`, in order. */
  function RecordNodes<V>(rs: seq<Transfer<V>>): seq<Node> {
    if rs == [] then [] else [rs[0].renderNode] + RecordNodes(rs[1..])
  }

  /** Removing the first `x` takes one occurrence of `x` out of the multiset. */
  lemma RemoveFirstCount(s: seq<Node>, x: Node)
    ensures multiset(RemoveFirst(s, x)) == multiset(s) - multiset{x}
  {
    if x in s {
      var k := FirstIndex(s, x);
      assert s == s[..k] + [x] + s[k + 1..];
    }
  }

  /** Taking away two sets of keys one after the other takes away their union. */
  lemma MinusTwice<K, U>(m: map<K, U>, a: set<K>, b: set<K>)
    ensures m - a - b == m - (a + b) == m - (b + a)
  {
    assert a + b == b + a;
  }

  function Sources(items: TransferItems): set<SlotId> {
    set i | 0 <= i < |items| :: items[i].0
  }

  function Targets(items: TransferItems): set<SlotId> {
    set i | 0 <= i < |items| :: items[i].1
  }

  /** No two pairs share a source id (keys of an object), nor a target id. */
  predicate DistinctIds(items: TransferItems) {
    forall i, j :: 0 <= i < j < |items| ==> items[i].0 != items[j].0 && items[i].1 != items[j].1
  }

  /** Two records that touch different slots and different overlay nodes. */
  predicate Disjoint<V(==)>(x: Transfer<V>, y: Transfer<V>, cur: V) {
    && x.renderNode != y.renderNode
    && (x.sourceView, x.sourceId) != (y.sourceView, y.sourceId)
    && (x.sourceView, x.sourceId) != (cur, y.targetId)
    && (cur, x.targetId) != (y.sourceView, y.sourceId)
    && x.targetId != y.targetId
  }

  lemma {:induction false} RemoveFirstCommutes(s: seq<Node>, a: Node, b: Node)
    requires a != b
    ensures RemoveFirst(RemoveFirst(s, a), b) == RemoveFirst(RemoveFirst(s, b), a)
    decreases |s|
  {
    if s != [] && s[0] != a && s[0] != b {
      RemoveFirstCommutes(s[1..], a, b);
      var ra := RemoveFirst(s[1..], a);
      var rb := RemoveFirst(s[1..], b);
      assert ([s[0]] + ra)[1..] == ra && ([s[0]] + rb)[1..] == rb;
    } else if s != [] && s[0] == a {
      var rb := RemoveFirst(s[1..], b);
      assert ([s[0]] + rb)[0] == a && ([s[0]] + rb)[1..] == rb;
    } else if s != [] {
      var ra := RemoveFirst(s[1..], a);
      assert ([s[0]] + ra)[0] == b && ([s[0]] + ra)[1..] == ra;
    }
  }

  lemma PutCommutes<V>(l: Layouts<V>, k1: (V, SlotId), r1: Option<Renderable>, k2: (V, SlotId), r2: Option<Renderable>)
    requires k1 != k2
    ensures Put(Put(l, k1.0, k1.1, r1), k2.0, k2.1, r2) == Put(Put(l, k2.0, k2.1, r2), k1.0, k1.1, r1)
  {
    var a := Put(Put(l, k1.0, k1.1, r1), k2.0, k2.1, r2);
    var b := Put(Put(l, k2.0, k2.1, r2), k1.0, k1.1, r1);
    LayoutsExt(a, b);
  }

  /** Layouts that agree on every slot are equal. */
  lemma LayoutsExt<V>(a: Layouts<V>, b: Layouts<V>)
    requires forall w, j :: Get(a, w, j) == Get(b, w, j)
    ensures a == b
  {
    forall k | k in a ensures k in b && a[k] == b[k] {
      assert Get(a, k.0, k.1) == Get(b, k.0, k.1);
    }
    forall k | k in b ensures k in a {
      assert Get(a, k.0, k.1) == Get(b, k.0, k.1);
    }
  }

  /** Ending two disjoint records in either order gives the same scene. */
  lemma EndOneCommutes<V>(s: Scene<V>, cur: V, x: Transfer<V>, y: Transfer<V>)
    requires Disjoint(x, y, cur)
    ensures EndOne(EndOne(s, cur, x), cur, y) == EndOne(EndOne(s, cur, y), cur, x)
  {
    RemoveFirstCommutes(s.overlay, x.renderNode, y.renderNode);
    var x1, x2 := (x.sourceView, x.sourceId), (cur, x.targetId);
    var y1, y2 := (y.sourceView, y.sourceId), (cur, y.targetId);
    var xs, xt, ys, yt := x.sourceRenderable, x.targetRenderable, y.sourceRenderable, y.targetRenderable;
    var l := s.layouts;
    calc {
      EndOne(EndOne(s, cur, x), cur, y).layouts;
      Put(Put(Put(Put(l, x1.0, x1.1, xs), x2.0, x2.1, xt), y1.0, y1.1, ys), y2.0, y2.1, yt);
      { PutCommutes(Put(l, x1.0, x1.1, xs), x2, xt, y1, ys); }
      Put(Put(Put(Put(l, x1.0, x1.1, xs), y1.0, y1.1, ys), x2.0, x2.1, xt), y2.0, y2.1, yt);
      { PutCommutes(l, x1, xs, y1, ys); }
      Put(Put(Put(Put(l, y1.0, y1.1, ys), x1.0, x1.1, xs), x2.0, x2.1, xt), y2.0, y2.1, yt);
      { PutCommutes(Put(Put(l, y1.0, y1.1, ys), x1.0, x1.1, xs), x2, xt, y2, yt); }
      Put(Put(Put(Put(l, y1.0, y1.1, ys), x1.0, x1.1, xs), y2.0, y2.1, yt), x2.0, x2.1, xt);
      { PutCommutes(Put(l, y1.0, y1.1, ys), x1, xs, y2, yt); }
      Put(Put(Put(Put(l, y1.0, y1.1, ys), y2.0, y2.1, yt), x1.0, x1.1, xs), x2.0, x2.1, xt);
      EndOne(EndOne(s, cur, y), cur, x).layouts;
    }
  }

  /** Ending `rs + [y]` is ending `y` first and then `rs`, when `y` is disjoint from
      every record of `rs`. */
  lemma {:induction false} EndLastFirst<V>(s: Scene<V>, cur: V, rs: seq<Transfer<V>>, y: Transfer<V>)
    requires forall x :: x in rs ==> Disjoint(x, y, cur)
    ensures EndAll(s, cur, rs + [y]) == EndAll(EndOne(s, cur, y), cur, rs)
    decreases |rs|
  {
    if rs == [] {
      assert ([] + [y])[1..] == [];
    } else {
      var x := rs[0];
      assert (rs + [y])[0] == x && (rs + [y])[1..] == rs[1..] + [y];
      EndLastFirst(EndOne(s, cur, x), cur, rs[1..], y);
      EndOneCommutes(s, cur, x, y);
    }
  }

  /** What the first `k` pairs leave behind, when they start on an item with no records. */
  lemma {:induction false} StartAllShape<V>(p: Progress<V>, prev: V, cur: V, prevSpecs: map<SlotId, Spec>,
                                            items: TransferItems, zIndex: Option<real>)
    requires p.records == []
    requires forall n :: n in p.scene.overlay ==> n.id < p.next
    requires DistinctIds(items)
    ensures var q := StartAll(p, prev, cur, prevSpecs, items, zIndex);
      && q.next >= p.next
      && (forall n :: n in q.scene.overlay ==> n.id < q.next)
      && (forall x :: x in q.records ==>
            && x.sourceView == prev && x.sourceId in Sources(items) && x.targetId in Targets(items)
            && p.next <= x.renderNode.id < q.next)
    decreases |items|
  {
    if items != [] {
      var items' := items[..|items| - 1];
      assert DistinctIds(items');
      StartAllShape(p, prev, cur, prevSpecs, items', zIndex);
      assert Sources(items') <= Sources(items) by {
        forall s | s in Sources(items') ensures s in Sources(items) {
          var i :| 0 <= i < |items'| && items'[i].0 == s;
          assert items[i].0 == s;
        }
      }
      assert Targets(items') <= Targets(items) by {
        forall s | s in Targets(items') ensures s in Targets(items) {
          var i :| 0 <= i < |items'| && items'[i].1 == s;
          assert items[i].1 == s;
        }
      }
      assert items[|items| - 1].0 in Sources(items) && items[|items| - 1].1 in Targets(items);
    }
  }

  /** Ending the record an accepted pair created undoes that pair. */
  lemma UndoPair<V>(q: Progress<V>, prev: V, cur: V, prevSpecs: map<SlotId, Spec>,
                    pair: (SlotId, SlotId), zIndex: Option<real>)
    requires prev != cur
    requires pair.0 in prevSpecs && Get(q.scene.layouts, cur, pair.1).Some?
    requires forall n :: n in q.scene.overlay ==> n.id < q.next
    ensures EndOne(StartPair(q, prev, cur, prevSpecs, pair, zIndex).scene, cur,
                   NewRecord(q, prev, cur, prevSpecs[pair.0], pair.0, pair.1, zIndex)) == q.scene
  {
    var t := NewRecord(q, prev, cur, prevSpecs[pair.0], pair.0, pair.1, zIndex);
    var q' := StartPair(q, prev, cur, prevSpecs, pair, zIndex);
    assert t.renderNode !in q.scene.overlay;
    RemoveFirstAppended(q.scene.overlay, t.renderNode);
    LayoutsExt(EndOne(q'.scene, cur, t).layouts, q.scene.layouts);
  }

  /** The transfer round trip: starting the transfers of an item that has none yet and
      ending them restores every slot of both views, leaves the overlay as it was and
      leaves no record behind. This needs the two views to be different objects, the
      source ids and the target ids to be distinct, and the overlay's nodes to be older
      than the next fresh node. */
  lemma {:induction false} RoundTrip<V>(p: Progress<V>, prev: V, cur: V, prevSpecs: map<SlotId, Spec>,
                                        items: TransferItems, zIndex: Option<real>)
    requires prev != cur
    requires p.records == []
    requires forall n :: n in p.scene.overlay ==> n.id < p.next
    requires DistinctIds(items)
    ensures EndAll(StartAll(p, prev, cur, prevSpecs, items, zIndex).scene, cur,
                   StartAll(p, prev, cur, prevSpecs, items, zIndex).records) == p.scene
    decreases |items|
  {
    if items != [] {
      var items' := items[..|items| - 1];
      assert DistinctIds(items');
      var q := StartAll(p, prev, cur, prevSpecs, items', zIndex);
      RoundTrip(p, prev, cur, prevSpecs, items', zIndex);
      StartAllShape(p, prev, cur, prevSpecs, items', zIndex);
      var pair := items[|items| - 1];
      if pair.0 in prevSpecs && Get(q.scene.layouts, cur, pair.1).Some? {
        var t := NewRecord(q, prev, cur, prevSpecs[pair.0], pair.0, pair.1, zIndex);
        var q' := StartPair(q, prev, cur, prevSpecs, pair, zIndex);
        LastPairDisjoint(q.records, items, t, prev, cur, q.next);
        assert q'.records == q.records + [t];
        EndLastFirst(q'.scene, cur, q.records, t);
        UndoPair(q, prev, cur, prevSpecs, pair, zIndex);
      }
    }
  }

  /** A record for the last pair of `items`, on a node newer than all of `rs`, is
      disjoint from every record of `rs` taken for the earlier pairs. */
  lemma LastPairDisjoint<V>(rs: seq<Transfer<V>>, items: TransferItems, t: Transfer<V>, prev: V, cur: V, next: nat)
    requires prev != cur && DistinctIds(items) && items != []
    requires forall x :: x in rs ==>
      && x.sourceView == prev && x.sourceId in Sources(items[..|items| - 1])
      && x.targetId in Targets(items[..|items| - 1]) && x.renderNode.id < next
    requires t.sourceView == prev && (t.sourceId, t.targetId) == items[|items| - 1] && t.renderNode.id == next
    ensures forall x :: x in rs ==> Disjoint(x, t, cur)
  {
    var items' := items[..|items| - 1];
    forall x | x in rs ensures Disjoint(x, t, cur) {
      var i :| 0 <= i < |items'| && items'[i].0 == x.sourceId;
      var j :| 0 <= j < |items'| && items'[j].1 == x.targetId;
      assert items[i].0 != t.sourceId && items[j].1 != t.targetId;
    }
  }

  lemma {:induction false} RemoveFirstAppended(s: seq<Node>, x: Node)
    requires x !in s
    ensures RemoveFirst(s + [x], x) == s
    decreases |s|
  {
    if s != [] {
      assert (s + [x])[0] == s[0] && (s + [x])[1..] == s[1..] + [x];
      RemoveFirstAppended(s[1..], x);
      assert [s[0]] + s[1..] == s;
    }
  }
}
