/** The `AnimationController` itself: its stack of items, the renderables it lays out,
    and the operations and events that change them. */
module Controller {
  import opened Wrappers
  import opened Geometry
  import opened Animations
  import opened ItemOptions
  import opened Transfers
  import opened TransferAnimation
  import opened StackLayout

  /** The identity of a callback a caller passed to `show` or `hide`. */
  type UserCallback = nat

  /** `item.callback`: the closure `show` installs (end the transfers, then call the
      caller's callback) or the one `_hide` installs (remove the item, then call the
      caller's callback). */
  datatype Callback = ShowDone(user: Option<UserCallback>) | HideDone(user: Option<UserCallback>)

  /** The transition an item's modifier runs: from `start` (or from wherever it is, when
      `start` is None) to `target`. */
  datatype Motion = Motion(start: Option<Pose>, target: Pose, transition: Option<Transition>)

  /** A transfer node's modifier starting its animation towards the target's spec. */
  datatype Launch = Launch(node: Node, targets: ModTargets, transition: Option<Transition>)

  /** A view shown by the controller, seen through its layout: the renderables in its
      slots and the specs its layout has settled for them. */
  class View {
    var slots: map<SlotId, Renderable>
    var specs: map<SlotId, Spec>

    constructor (slots: map<SlotId, Renderable>, specs: map<SlotId, Spec>)
      ensures this.slots == slots && this.specs == specs
    {
      this.slots := slots;
      this.specs := specs;
    }

    /** `view.layout.replace(id, r)`: the slot takes `r` and what it held is returned. */
    method Replace(id: SlotId, r: Option<Renderable>) returns (prior: Option<Renderable>)
      modifies this
      ensures prior == (if id in old(slots) then Some(old(slots)[id]) else None)
      ensures slots == PutSlot(old(slots), id, r)
      ensures specs == old(specs)
    {
      prior := if id in slots then Some(slots[id]) else None;
      slots := PutSlot(slots, id, r);
    }

    /** The view's layout settling on spec `sp` for slot `id` in one of its layout
        passes: what `getSpec(id)` returns from then on. The slots stay as they are. */
    method SettleSpec(id: SlotId, sp: Spec)
      modifies this
      ensures specs == old(specs)[id := sp] && slots == old(slots)
    {
      specs := specs[id := sp];
    }
  }

  /** One view's slots after `replace(id, r)`. */
  function PutSlot(m: map<SlotId, Renderable>, id: SlotId, r: Option<Renderable>): map<SlotId, Renderable> {
    if r.Some? then m[id := r.value] else m - {id}
  }

  /** The slots of views `a` and `b` (possibly the same view), given their slot maps,
      keyed by (view, id). */
  function Pair(a: View, sa: map<SlotId, Renderable>, b: View, sb: map<SlotId, Renderable>): Layouts<View> {
    map v, id | v in {a, b} && id in (if v == a then sa else sb) :: (v, id) := (if v == a then sa else sb)[id]
  }

  lemma PairGet(a: View, sa: map<SlotId, Renderable>, b: View, sb: map<SlotId, Renderable>, id: SlotId)
    ensures Get(Pair(a, sa, b, sb), b, id) == if id in (if a == b then sa else sb) then Some((if a == b then sa else sb)[id]) else None
  {
    if id in (if a == b then sa else sb) {
      assert (b, id) in Pair(a, sa, b, sb);
    }
  }

  /** Replacing a slot of one of the two views is a `Put` on their joint slots. */
  lemma PairPut(a: View, sa: map<SlotId, Renderable>, b: View, sb: map<SlotId, Renderable>,
                v: View, id: SlotId, r: Option<Renderable>)
    requires v == a || v == b
    requires a == b ==> sa == sb
    ensures Pair(a, if v == a then PutSlot(sa, id, r) else sa, b, if v == b then PutSlot(sb, id, r) else sb)
         == Put(Pair(a, sa, b, sb), v, id, r)
  {
    var after := Pair(a, if v == a then PutSlot(sa, id, r) else sa, b, if v == b then PutSlot(sb, id, r) else sb);
    var want := Put(Pair(a, sa, b, sb), v, id, r);
    forall k | k in after ensures k in want && after[k] == want[k] {
      if k != (v, id) {
        assert k in Pair(a, sa, b, sb);
      }
    }
    forall k | k in want ensures k in after {
      if k != (v, id) {
        assert k in Pair(a, sa, b, sb);
      }
    }
  }

  /** The two `replace` calls of a transfer: the source slot of the previous view takes
      a snapshot at the source's spec, the target slot of the new view takes an
      opacity-0 node holding the target; the two renderables they held are returned. */
  method SwapIn(prev: View, cur: View, sourceId: SlotId, targetId: SlotId)
    returns (source: Option<Renderable>, original: Option<Renderable>)
    requires sourceId in prev.specs && targetId in cur.slots
    modifies prev, cur
    ensures prev.specs == old(prev.specs) && cur.specs == old(cur.specs)
    ensures var before := old(Pair(prev, prev.slots, cur, cur.slots));
      var l1 := Put(before, prev, sourceId, Some(Snapshot(old(prev.specs[sourceId]))));
      && source == Get(before, prev, sourceId)
      && original == Get(l1, cur, targetId)
      && Get(before, cur, targetId) == Some(old(cur.slots[targetId]))
      && Pair(prev, prev.slots, cur, cur.slots) == Put(l1, cur, targetId, Some(Faded(old(cur.slots[targetId]))))
  {
    var spec := prev.specs[sourceId];
    var target := cur.slots[targetId];
    ghost var s0, c0 := prev.slots, cur.slots;
    PairGet(prev, s0, cur, c0, targetId);
    PairGet(prev, s0, prev, s0, sourceId);
    source := prev.Replace(sourceId, Some(Snapshot(spec)));
    ghost var s1, c1 := prev.slots, cur.slots;
    PairPut(prev, s0, cur, c0, prev, sourceId, Some(Snapshot(spec)));
    PairGet(prev, s1, cur, c1, targetId);
    original := cur.Replace(targetId, Some(Faded(target)));
    PairPut(prev, s1, cur, c1, cur, targetId, Some(Faded(target)));
  }

  /** An item's fields other than its transfer records. */
  datatype ItemState = ItemState(view: Option<View>, options: ItemOptions, callback: Callback,
                                 startShow: bool, startHide: bool, motion: Option<Motion>, pending: Option<Callback>)

  /** The pose `_startAnimation` composes for an item in state `s`: from its show
      animations when a show is pending, from its hide animations otherwise. */
  function StartPose(s: ItemState, size: Size): Pose {
    Composed(s.startShow, (if s.startShow then s.options.show.animations else s.options.hide.animations).GetOr([]), size)
  }

  /** What `_startAnimation` leaves of an item in state `s`, given the composed pose.
      The modifier is halted first, which drops the callback of any transition it was
      running. A pending show then starts from the pose towards rest; otherwise a
      pending hide starts from wherever the item is towards the pose; with neither
      pending, the item is only halted. Either started transition carries the item's
      callback. The view, the options and the callback stay. */
  function StartedState(s: ItemState, pose: Pose): ItemState {
    if s.startShow then
      s.(startShow := false, motion := Some(Motion(Some(pose), Rest, s.options.show.transition)), pending := Some(s.callback))
    else if s.startHide then
      s.(startHide := false, motion := Some(Motion(None, pose, s.options.hide.transition)), pending := Some(s.callback))
    else
      s.(motion := None, pending := None)
  }

  /** The two `replace` calls that end a transfer: the source slot of the view the
      record was taken from and the target slot of `cur` get back the renderables the
      record remembers. */
  method SwapBack(t: Transfer<View>, cur: View)
    modifies t.sourceView, cur
    ensures Pair(t.sourceView, t.sourceView.slots, cur, cur.slots)
         == Put(Put(old(Pair(t.sourceView, t.sourceView.slots, cur, cur.slots)), t.sourceView, t.sourceId, t.sourceRenderable),
                cur, t.targetId, t.targetRenderable)
    ensures t.sourceView.specs == old(t.sourceView.specs) && cur.specs == old(cur.specs)
  {
    var src := t.sourceView;
    ghost var s0, c0 := src.slots, cur.slots;
    var _ := src.Replace(t.sourceId, t.sourceRenderable);
    PairPut(src, s0, cur, c0, src, t.sourceId, t.sourceRenderable);
    ghost var s1, c1 := src.slots, cur.slots;
    var _ := cur.Replace(t.targetId, t.targetRenderable);
    PairPut(src, s1, cur, c1, cur, t.targetId, t.targetRenderable);
  }

  /** An item of the view stack: one view with the modifier that animates it. */
  class Item {
    var view: Option<View>
    const node: Node
    /** `item.show` and `item.hide`: the next layout pass is to start the show (or
        the hide) animation. */
    var startShow: bool
    var startHide: bool
    var options: ItemOptions
    var callback: Callback
    var transferables: seq<Transfer<View>>
    /** The transition the item's modifier is running, and the callback it will call
        when that transition completes. */
    var motion: Option<Motion>
    var pending: Option<Callback>

    /** `_createItem`, with the callback `show` installs. */
    constructor (view: View, node: Node, options: ItemOptions, callback: Callback)
      ensures this.view == Some(view) && this.node == node && this.options == options
      ensures this.callback == callback && startShow && !startHide
      ensures transferables == [] && motion == None && pending == None
    {
      this.view := Some(view);
      this.node := node;
      this.startShow := true;
      this.startHide := false;
      this.options := options;
      this.callback := callback;
      this.transferables := [];
      this.motion := None;
      this.pending := None;
    }

    /** Everything but the transfer records is as it was. */
    twostate predicate KeptButRecords()
      reads this
    {
      State() == old(State())
    }

    /** The fields other than the transfer records, together. */
    function State(): ItemState
      reads this
    {
      ItemState(view, options, callback, startShow, startHide, motion, pending)
    }

    /** What holds of every item on the stack: it still has its view, it has no
        transfer records before its show animation starts, and the records it has were
        all taken from one view. */
    ghost predicate Sound()
      reads this
    {
      && view.Some?
      && (startShow ==> transferables == [])
      && (transferables == [] || FromOneView(transferables, transferables[0].sourceView))
    }

    /** `_startAnimation`'s effect on the item. */
    twostate predicate AnimationStarted(size: Size)
      reads this
    {
      State() == StartedState(old(State()), StartPose(old(State()), size))
    }

    /** The modifier calls of `_startAnimation`: `halt`, then the show or the hide. */
    method Restart(pose: Pose)
      requires Sound()
      modifies this
      ensures State() == StartedState(old(State()), pose) && transferables == old(transferables) && Sound()
    {
      pending := None;
      motion := None;
      if startShow {
        startShow := false;
        motion := Some(Motion(Some(pose), Rest, options.show.transition));
        pending := Some(callback);
      } else if startHide {
        startHide := false;
        motion := Some(Motion(None, pose, options.hide.transition));
        pending := Some(callback);
      }
    }

    /** `item.transferables[t.targetId] = t`. */
    method AddRecord(t: Transfer<View>)
      modifies this
      ensures transferables == Record(old(transferables), t)
      ensures KeptButRecords()
    {
      transferables := Record(transferables, t);
    }
  }

  /** A registration with `Timer.every`: `_waitForSettledSpec` for one transfer. */
  datatype Waiter = Waiter(item: Item, wait: Wait, transition: Option<Transition>)

  /** The timer registrations for the waits one item's transfers started. */
  function Register(it: Item, ws: seq<Wait>, transition: Option<Transition>): seq<Waiter>
    decreases |ws|
  {
    if ws == [] then [] else Register(it, ws[..|ws| - 1], transition) + [Waiter(it, ws[|ws| - 1], transition)]
  }

  lemma {:induction false} RegisterAppend(it: Item, a: seq<Wait>, b: seq<Wait>, transition: Option<Transition>)
    ensures Register(it, a + b, transition) == Register(it, a, transition) + Register(it, b, transition)
    decreases |b|
  {
    if b == [] {
      assert a + b == a;
    } else {
      assert (a + b)[..|a + b| - 1] == a + b[..|b| - 1];
      RegisterAppend(it, a, b[..|b| - 1], transition);
    }
  }

  /** Registering the waits of `ws` and then those of `added` registers `ws + added`. */
  lemma RegisterMore(w0: seq<Waiter>, w1: seq<Waiter>, w2: seq<Waiter>, it: Item, ws: seq<Wait>, added: seq<Wait>,
                     transition: Option<Transition>)
    requires w1 == w0 + Register(it, ws, transition) && w2 == w1 + Register(it, added, transition)
    ensures w2 == w0 + Register(it, ws + added, transition)
  {
    RegisterAppend(it, ws, added, transition);
  }

  /** The items of registrations `ws`. */
  function WatchedItems(ws: seq<Waiter>): set<Item> {
    set w | w in ws :: w.item
  }

  /** What the polls of registrations `ws` look at besides their items: the items' views. */
  function WatchedViews(ws: seq<Waiter>): set<View>
    reads WatchedItems(ws)
  {
    set w | w in ws && w.item.view.Some? :: w.item.view.value
  }

  /** One run of `_waitForSettledSpec` for registration `w`: with the item's view
      gone it clears itself, otherwise it asks the view's layout for the target's spec. */
  function Poll(w: Waiter): (r: PollResult)
    reads w.item, if w.item.view.Some? then {w.item.view.value} else {}
    ensures r.Cleared? <==> w.item.view.None?
    ensures r.Fired? <==> w.item.view.Some? && w.wait.targetId in w.item.view.value.specs
    ensures r.Fired? ==> r.spec == w.item.view.value.specs[w.wait.targetId]
  {
    if w.item.view.Some? then
      var specs := w.item.view.value.specs;
      PollOnce(true, if w.wait.targetId in specs then Some(specs[w.wait.targetId]) else None)
    else PollOnce(false, None)
  }

  /** The animation a registration starts once its target's spec has settled at
      `spec`: the transfer node's modifier moves from the source spec towards it. */
  function LaunchOf(w: Waiter, spec: Spec): Launch {
    Launch(w.wait.node, AnimateTargets(w.wait.sourceSpec, spec), w.transition)
  }

  /** The registrations one timer tick leaves in place: those still waiting. */
  function StillWaiting(ws: seq<Waiter>): seq<Waiter>
    reads WatchedItems(ws), WatchedViews(ws)
    decreases |ws|
  {
    if ws == [] then []
    else
      var k := |ws| - 1;
      assert WatchedItems(ws[..k]) <= WatchedItems(ws) && WatchedViews(ws[..k]) <= WatchedViews(ws);
      StillWaiting(ws[..k]) + (if Poll(ws[k]).Waiting? then [ws[k]] else [])
  }

  /** The animations one timer tick starts, in registration order: one per
      registration whose target's spec has settled. */
  function Launches(ws: seq<Waiter>): seq<Launch>
    reads WatchedItems(ws), WatchedViews(ws)
    decreases |ws|
  {
    if ws == [] then []
    else
      var k := |ws| - 1;
      assert WatchedItems(ws[..k]) <= WatchedItems(ws) && WatchedViews(ws[..k]) <= WatchedViews(ws);
      var p := Poll(ws[k]);
      Launches(ws[..k]) + (if p.Fired? then [LaunchOf(ws[k], p.spec)] else [])
  }

  /** A tick keeps exactly the registrations still waiting, starts an animation for
      exactly the registrations that fired, and unregisters every cleared or fired one. */
  lemma {:induction false} TickSound(ws: seq<Waiter>)
    ensures forall w :: w in StillWaiting(ws) <==> w in ws && Poll(w).Waiting?
    ensures forall w :: w in ws && Poll(w).Fired? ==> LaunchOf(w, Poll(w).spec) in Launches(ws)
    ensures forall l :: l in Launches(ws) ==> exists w :: w in ws && Poll(w).Fired? && l == LaunchOf(w, Poll(w).spec)
    ensures |StillWaiting(ws)| + |Launches(ws)| <= |ws|
    decreases |ws|
  {
    if ws != [] {
      var k := |ws| - 1;
      TickSound(ws[..k]);
      assert ws == ws[..k] + [ws[k]];
      assert WatchedItems(ws[..k]) <= WatchedItems(ws) && WatchedViews(ws[..k]) <= WatchedViews(ws);
      forall l | l in Launches(ws)
        ensures exists w :: w in ws && Poll(w).Fired? && l == LaunchOf(w, Poll(w).spec)
      {
        if l in Launches(ws[..k]) {
          var w :| w in ws[..k] && Poll(w).Fired? && l == LaunchOf(w, Poll(w).spec);
          assert w in ws;
        } else {
          assert ws[k] in ws;
        }
      }
    }
  }

  /** The record nodes of one item, in key order. */
  function RenderNodes(rs: seq<Transfer<View>>): (r: seq<Node>)
    ensures |r| == |rs| && forall j :: 0 <= j < |rs| ==> r[j] == rs[j].renderNode
  {
    seq(|rs|, j requires 0 <= j < |rs| => rs[j].renderNode)
  }

  /** The record nodes of each item of `items`. */
  function Owned(items: seq<Item>): (r: seq<seq<Node>>)
    reads items
    ensures |r| == |items| && forall i :: 0 <= i < |items| ==> r[i] == RenderNodes(items[i].transferables)
    decreases |items|
  {
    if items == [] then [] else Owned(items[..|items| - 1]) + [RenderNodes(items[|items| - 1].transferables)]
  }

  /** Everything one `layoutend` can change, as values: the state and the transfer
      records of each item of the stack, the slots and the settled specs of the views,
      the overlay, the timer's registrations and the node counter. */
  datatype World = World(states: seq<ItemState>, records: seq<seq<Transfer<View>>>,
                         layouts: Layouts<View>, specs: map<View, map<SlotId, Spec>>,
                         overlay: seq<Node>, waiters: seq<Waiter>, next: nat)

  /** The settled specs of view `v` in `w` (none for a view `w` does not hold). */
  function SpecsIn(w: World, v: View): map<SlotId, Spec> {
    if v in w.specs then w.specs[v] else map[]
  }

  /** The turn of `_startAnimations` for the item at `i` of `items`. Without a pending
      show or hide nothing happens. Otherwise the item restarts at the pose its
      animations compose to; a show also starts the item's transfers when there is an
      item below it, from the view of that item below, as `StartAll` does, and the
      timer gets one registration per transfer started. A hide, or the show of the
      bottom item, touches no record, slot, overlay node or registration. */
  function PassOne(w: World, items: seq<Item>, i: nat, size: Size): (r: World)
    requires |w.states| == |w.records| == |items| && i < |items|
    ensures |r.states| == |w.states| && |r.records| == |w.records|
  {
    var s := w.states[i];
    if !(s.startShow || s.startHide) then w
    else
      var w1 := w.(states := w.states[i := StartedState(s, StartPose(s, size))]);
      if s.startShow && i > 0 && s.view.Some? && w.states[i - 1].view.Some? then
        var prev, cur := w.states[i - 1].view.value, s.view.value;
        var q := StartAll(Progress(Scene(w.layouts, w.overlay), w.records[i], w.next, []),
                          prev, cur, SpecsIn(w, prev), s.options.transfer.items, s.options.transfer.zIndex);
        w1.(records := w.records[i := q.records], layouts := q.scene.layouts, overlay := q.scene.overlay,
            next := q.next, waiters := w.waiters + Register(items[i], q.waits, s.options.transfer.transition))
      else w1
  }

  /** The turns of the first `n` items, bottom to top. */
  function Passes(w: World, items: seq<Item>, n: nat, size: Size): (r: World)
    requires |w.states| == |w.records| == |items| && n <= |items|
    ensures |r.states| == |w.states| && |r.records| == |w.records|
    decreases n
  {
    if n == 0 then w else PassOne(Passes(w, items, n - 1, size), items, n - 1, size)
  }

  /** The state an item's own turn leaves it in. */
  function Turn(s: ItemState, size: Size): ItemState {
    if s.startShow || s.startHide then StartedState(s, StartPose(s, size)) else s
  }

  /** After the turns of the first `n` items, each of them is in the state its own turn
      leaves it in, whatever the items below did, and the items above are untouched. */
  lemma {:induction false} PassesStates(w: World, items: seq<Item>, n: nat, size: Size)
    requires |w.states| == |w.records| == |items| && n <= |items|
    ensures forall j :: 0 <= j < |items| ==>
      Passes(w, items, n, size).states[j] == if j < n then Turn(w.states[j], size) else w.states[j]
    decreases n
  {
    if n > 0 {
      PassesStates(w, items, n - 1, size);
    }
  }

  /** Records change only for the show of an item with an item below it: every other
      item keeps its records. */
  lemma {:induction false} PassesRecords(w: World, items: seq<Item>, n: nat, size: Size)
    requires |w.states| == |w.records| == |items| && n <= |items|
    ensures forall j :: 0 <= j < |items| && !(0 < j < n && w.states[j].startShow) ==>
      Passes(w, items, n, size).records[j] == w.records[j]
    decreases n
  {
    if n > 0 {
      PassesRecords(w, items, n - 1, size);
      PassesStates(w, items, n - 1, size);
    }
  }

  /** When no item with an item below it has a pending show, the pass changes the
      items' states only: no record, slot, spec, overlay node or registration. */
  lemma {:induction false} PassesQuiet(w: World, items: seq<Item>, n: nat, size: Size)
    requires |w.states| == |w.records| == |items| && n <= |items|
    requires forall j :: 0 < j < n ==> !w.states[j].startShow
    ensures Passes(w, items, n, size) == w.(states := Passes(w, items, n, size).states)
    decreases n
  {
    if n > 0 {
      PassesQuiet(w, items, n - 1, size);
      PassesStates(w, items, n - 1, size);
    }
  }

  /** A pass only adds to the overlay and to the timer's registrations, never reuses a
      node (the nodes it adds are the next ones of the counter, in order), and leaves
      the views' specs alone. */
  lemma {:induction false} PassesGrow(w: World, items: seq<Item>, n: nat, size: Size)
    requires |w.states| == |w.records| == |items| && n <= |items|
    ensures var r := Passes(w, items, n, size);
      && r.specs == w.specs && w.next <= r.next && w.overlay <= r.overlay && w.waiters <= r.waiters
      && |r.overlay| - |w.overlay| == r.next - w.next
      && forall k :: |w.overlay| <= k < |r.overlay| ==> r.overlay[k] == Node(w.next + k - |w.overlay|)
    decreases n
  {
    if n > 0 {
      PassesGrow(w, items, n - 1, size);
      var r0 := Passes(w, items, n - 1, size);
      PassOneGrows(r0, items, n - 1, size);
      var r := PassOne(r0, items, n - 1, size);
      forall k | |w.overlay| <= k < |r.overlay|
        ensures r.overlay[k] == Node(w.next + k - |w.overlay|)
      {
        if k < |r0.overlay| {
          assert r.overlay[k] == r0.overlay[k];
        }
      }
    }
  }

  /** `PassesGrow` for one turn. */
  lemma PassOneGrows(w: World, items: seq<Item>, i: nat, size: Size)
    requires |w.states| == |w.records| == |items| && i < |items|
    ensures var r := PassOne(w, items, i, size);
      && r.specs == w.specs && w.next <= r.next && w.overlay <= r.overlay && w.waiters <= r.waiters
      && |r.overlay| - |w.overlay| == r.next - w.next
      && forall k :: |w.overlay| <= k < |r.overlay| ==> r.overlay[k] == Node(w.next + k - |w.overlay|)
  {
    var r := PassOne(w, items, i, size);
    if r != w {
      assert r.overlay == w.overlay + r.overlay[|w.overlay|..];
    }
  }

  /** The slots of each view of `vs`. */
  ghost function SlotsOf(vs: set<View>): map<View, map<SlotId, Renderable>>
    reads vs
  {
    map v | v in vs :: v.slots
  }

  /** The settled specs of each view of `vs`. */
  ghost function SpecsOf(vs: set<View>): map<View, map<SlotId, Spec>>
    reads vs
  {
    map v | v in vs :: v.specs
  }

  /** The slots of several views, keyed by (view, id). */
  function Flatten(m: map<View, map<SlotId, Renderable>>): Layouts<View> {
    map v, id | v in m && id in m[v] :: (v, id) := m[v][id]
  }

  /** The joint slots of two of the views are the slots of all views seen through those two. */
  lemma PairIsRestrict(m: map<View, map<SlotId, Renderable>>, a: View, b: View)
    requires a in m && b in m
    ensures Pair(a, m[a], b, m[b]) == Restrict(Flatten(m), a, b)
  {
    var x, y := Pair(a, m[a], b, m[b]), Restrict(Flatten(m), a, b);
    forall k | k in x ensures k in y && x[k] == y[k] {
      assert k in Flatten(m);
    }
    forall k | k in y ensures k in x {
      assert k in Flatten(m);
    }
  }

  /** Views other than `a` and `b` that keep their slots keep them in the joint map. */
  lemma FlattenOutside(m0: map<View, map<SlotId, Renderable>>, m1: map<View, map<SlotId, Renderable>>, a: View, b: View)
    requires m0.Keys == m1.Keys && forall v :: v in m0 && v != a && v != b ==> m1[v] == m0[v]
    ensures Outside(Flatten(m0), a, b) == Outside(Flatten(m1), a, b)
  {
    var x, y := Outside(Flatten(m0), a, b), Outside(Flatten(m1), a, b);
    forall k | k in x ensures k in y && x[k] == y[k] {
      assert k in Flatten(m0) && k in Flatten(m1);
    }
    forall k | k in y ensures k in x {
      assert k in Flatten(m1) && k in Flatten(m0);
    }
  }

  /** A transfer start that changed the slots of views `prev` and `cur` as `StartAll` on
      their joint slots says changed all views' slots as `StartAll` on the joint map of
      all of them, when no other view changed. */
  lemma LiftStartAll(m0: map<View, map<SlotId, Renderable>>, m1: map<View, map<SlotId, Renderable>>,
                     p: Progress<View>, q': Progress<View>, prev: View, cur: View, prevSpecs: map<SlotId, Spec>,
                     items: TransferItems, zIndex: Option<real>)
    requires prev in m0 && cur in m0 && m0.Keys == m1.Keys
    requires forall v :: v in m0 && v != prev && v != cur ==> m1[v] == m0[v]
    requires p.scene.layouts == Flatten(m0)
    requires q' == StartAll(p.(scene := p.scene.(layouts := Pair(prev, m0[prev], cur, m0[cur]))), prev, cur, prevSpecs, items, zIndex)
    requires q'.scene.layouts == Pair(prev, m1[prev], cur, m1[cur])
    ensures StartAll(p, prev, cur, prevSpecs, items, zIndex) == q'.(scene := q'.scene.(layouts := Flatten(m1)))
  {
    var q := StartAll(p, prev, cur, prevSpecs, items, zIndex);
    PairIsRestrict(m0, prev, cur);
    PairIsRestrict(m1, prev, cur);
    assert p.(scene := p.scene.(layouts := Pair(prev, m0[prev], cur, m0[cur]))) == Restricted(p, prev, cur);
    StartAllRestrict(p, prev, cur, prevSpecs, items, zIndex);
    FlattenOutside(m0, m1, prev, cur);
    RestrictOutsideExt(q.scene.layouts, Flatten(m1), prev, cur);
  }

  /** A sequence that differs from `a` at most at `i` is `a` updated at `i`. */
  lemma SeqAt<T>(a: seq<T>, b: seq<T>, i: nat)
    requires |a| == |b| && i < |a| && forall j :: 0 <= j < |a| && j != i ==> b[j] == a[j]
    ensures b == a[i := b[i]]
  {
  }

  /** `PassOne` for the show of an item with an item below it, from its parts. */
  /** The turn of a showing item, from what it does to the items, the slots of the two
      views and the transfer state. */
  lemma ShowAssemble(w0: World, w: World, items: seq<Item>, i: nat, size: Size, s: ItemState, prev: View, cur: View,
                     m0: map<View, map<SlotId, Renderable>>, m1: map<View, map<SlotId, Renderable>>, q': Progress<View>)
    requires |w0.states| == |w0.records| == |items| && 0 < i < |items|
    requires s == w0.states[i] && s.startShow && s.view == Some(cur) && w0.states[i - 1].view == Some(prev)
    requires prev in m0 && cur in m0 && m0.Keys == m1.Keys
    requires forall v :: v in m0 && v != prev && v != cur ==> m1[v] == m0[v]
    requires w0.layouts == Flatten(m0) && w.layouts == Flatten(m1)
    requires q' == StartAll(Progress(Scene(Pair(prev, m0[prev], cur, m0[cur]), w0.overlay), w0.records[i], w0.next, []),
                            prev, cur, SpecsIn(w0, prev), s.options.transfer.items, s.options.transfer.zIndex)
    requires q'.scene.layouts == Pair(prev, m1[prev], cur, m1[cur])
    requires |w.states| == |w0.states| && w.states[i] == StartedState(s, StartPose(s, size))
    requires forall j :: 0 <= j < |w0.states| && j != i ==> w.states[j] == w0.states[j]
    requires |w.records| == |w0.records| && w.records[i] == q'.records
    requires forall j :: 0 <= j < |w0.records| && j != i ==> w.records[j] == w0.records[j]
    requires w.specs == w0.specs && w.overlay == q'.scene.overlay && w.next == q'.next
    requires w.waiters == w0.waiters + Register(items[i], q'.waits, s.options.transfer.transition)
    ensures w == PassOne(w0, items, i, size)
  {
    SeqAt(w0.states, w.states, i);
    SeqAt(w0.records, w.records, i);
    LiftStartAll(m0, m1, Progress(Scene(w0.layouts, w0.overlay), w0.records[i], w0.next, []),
                 q', prev, cur, SpecsIn(w0, prev), s.options.transfer.items, s.options.transfer.zIndex);
    PassOneShow(w0, items, i, size, s, prev, q'.(scene := Scene(Flatten(m1), w.overlay)), w);
  }

  lemma PassOneShow(w0: World, items: seq<Item>, i: nat, size: Size, s: ItemState, prev: View, q: Progress<View>, w: World)
    requires |w0.states| == |w0.records| == |items| && 0 < i < |items|
    requires s == w0.states[i] && s.startShow && s.view.Some? && w0.states[i - 1].view == Some(prev)
    requires q == StartAll(Progress(Scene(w0.layouts, w0.overlay), w0.records[i], w0.next, []),
                           prev, s.view.value, SpecsIn(w0, prev), s.options.transfer.items, s.options.transfer.zIndex)
    requires && w.states == w0.states[i := StartedState(s, StartPose(s, size))] && w.specs == w0.specs
      && w.records == w0.records[i := q.records] && w.layouts == q.scene.layouts && w.overlay == q.scene.overlay
      && w.next == q.next && w.waiters == w0.waiters + Register(items[i], q.waits, s.options.transfer.transition)
    ensures w == PassOne(w0, items, i, size)
  {
  }

  /** `PassOne` for a pending hide, or a show with no item below, from its parts. */
  lemma PassOneOther(w0: World, items: seq<Item>, i: nat, size: Size, w: World)
    requires |w0.states| == |w0.records| == |items| && i < |items|
    requires (w0.states[i].startShow || w0.states[i].startHide) && !(w0.states[i].startShow && i > 0)
    requires w == w0.(states := w0.states[i := StartedState(w0.states[i], StartPose(w0.states[i], size))])
    ensures w == PassOne(w0, items, i, size)
  {
  }

  class AnimationController {
    var options: Options
    var zIndexOffset: real
    var stack: seq<Item>       // `_viewStack`
    var views: seq<Node>       // `_renderables.views`
    var overlay: seq<Node>     // `_renderables.transferables`
    var waiters: seq<Waiter>   // the timer's registrations
    var nextNode: nat          // nodes with an id below it have been created

    /** The view stack and `_renderables.views` run in step, every item in the stack
        still has its view, and every node was created by the controller exactly once. */
    ghost predicate Valid()
      reads this, stack
    {
      Shape() && ItemsSound()
    }

    /** The part of `Valid` that only depends on the controller's own fields. */
    ghost predicate Shape()
      reads this
    {
      && |views| == |stack|
      && (forall i :: 0 <= i < |stack| ==> views[i] == stack[i].node && views[i].id < nextNode)
      && (forall i, j :: 0 <= i < j < |views| ==> views[i] != views[j])
      && (forall n :: n in overlay ==> n.id < nextNode && n !in views)
    }

    ghost predicate ItemsSound()
      reads this, stack
    {
      forall i :: 0 <= i < |stack| ==> stack[i].Sound()
    }

    /** The controller as `setOptions` leaves it, with no item yet. */
    constructor (options: Options, zIndexOffset: real)
      ensures Valid()
      ensures this.options == options && this.zIndexOffset == zIndexOffset
      ensures stack == [] && views == [] && overlay == [] && waiters == []
    {
      this.options := options;
      this.zIndexOffset := zIndexOffset;
      stack := [];
      views := [];
      overlay := [];
      waiters := [];
      nextNode := 0;
    }

    /** The stack, the views and the options are as they were. */
    twostate predicate StackKept()
      reads this
    {
      (stack, views, options, zIndexOffset) == old((stack, views, options, zIndexOffset))
    }

    /** The top item, if any. */
    function Top(): set<Item>
      reads this
    {
      if stack == [] then {} else {stack[|stack| - 1]}
    }

    /** `_getItem`: the last shown item, unless it is being hidden. */
    function GetItem(): (r: Option<Item>)
      reads this, stack
      ensures r.Some? <==> stack != [] && !stack[|stack| - 1].startHide
      ensures r.Some? ==> r.value == stack[|stack| - 1]
    {
      if stack != [] && !stack[|stack| - 1].startHide then Some(stack[|stack| - 1]) else None
    }

    /** `get`: the view of the last shown item, unless that item is being hidden. */
    function Get(): (r: Option<View>)
      requires Valid()
      reads this, stack
      ensures r.Some? <==> GetItem().Some?
      ensures r.Some? ==> r == stack[|stack| - 1].view
    {
      if GetItem().Some? then GetItem().value.view else None
    }

    /** `_hide`: marks the visible item as hiding, lays the call's options over its hide
        options and installs the removal callback. With no visible item nothing changes
        and the callback is due at once. */
    method HideItem(opts: Option<Options>, cb: Option<UserCallback>) returns (immediate: Option<UserCallback>)
      requires Valid()
      modifies Top()
      ensures Valid()
      ensures old(GetItem()).None? ==> immediate == cb && forall it :: it in old(Top()) ==> unchanged(it)
      ensures old(GetItem()).Some? ==>
        var it := old(GetItem()).value;
        && immediate == None
        && it.startHide && it.callback == HideDone(cb)
        && it.options == HideOverride(old(it.options), opts)
        && it.view == old(it.view) && it.startShow == old(it.startShow)
        && it.transferables == old(it.transferables)
        && it.motion == old(it.motion) && it.pending == old(it.pending)
      ensures GetItem() == None
    {
      var top := GetItem();
      if top.None? {
        return cb;
      }
      var it := top.value;
      it.startHide := true;
      it.options := HideOverride(it.options, opts);
      it.callback := HideDone(cb);
      immediate := None;
    }

    /** `hide`: the callback is either due at once (nothing visible) or installed to
        run once the hide animation has removed the item. Nothing is visible afterwards. */
    method Hide(opts: Option<Options>, cb: Option<UserCallback>) returns (immediate: Option<UserCallback>)
      requires Valid()
      modifies Top()
      ensures Valid()
      ensures old(GetItem()).None? ==> immediate == cb && forall it :: it in old(Top()) ==> unchanged(it)
      ensures old(GetItem()).Some? ==>
        var it := old(GetItem()).value;
        && immediate == None
        && it.startHide && it.callback == HideDone(cb)
        && it.options == HideOverride(old(it.options), opts)
        && it.view == old(it.view) && it.startShow == old(it.startShow)
        && it.transferables == old(it.transferables)
        && it.motion == old(it.motion) && it.pending == old(it.pending)
      ensures Get() == None
    {
      immediate := HideItem(opts, cb);
    }

    /** `show`: hides the visible item with this call's options (and no callback), then
        pushes a new item for `view` whose options come from `_createItem`, which then
        is what `get` returns. */
    method Show(view: View, opts: Option<Options>, cb: Option<UserCallback>)
      requires Valid()
      modifies this, Top()
      ensures Valid()
      ensures |stack| == |old(stack)| + 1 && stack[..|old(stack)|] == old(stack)
      ensures var it := stack[|stack| - 1];
        && fresh(it)
        && it.view == Some(view) && it.startShow && !it.startHide
        && it.options == CreateOptions(options, opts) && it.callback == ShowDone(cb)
        && it.transferables == [] && it.motion == None && it.pending == None
        && it.node == Node(old(nextNode)) && views == old(views) + [it.node]
      ensures old(GetItem()).None? ==> forall x :: x in old(Top()) ==> unchanged(x)
      ensures old(GetItem()).Some? ==>
        var prior := old(GetItem()).value;
        && prior.startHide && prior.callback == HideDone(None) && prior.options == HideOverride(old(prior.options), opts)
        && prior.view == old(prior.view) && prior.startShow == old(prior.startShow)
        && prior.transferables == old(prior.transferables)
        && prior.motion == old(prior.motion) && prior.pending == old(prior.pending)
      ensures overlay == old(overlay) && waiters == old(waiters) && options == old(options)
      ensures nextNode == old(nextNode) + 1 && zIndexOffset == old(zIndexOffset)
      ensures Get() == Some(view)
    {
      var _ := HideItem(opts, None);
      var it := new Item(view, Node(nextNode), CreateOptions(options, opts), ShowDone(cb));
      Push(it);
    }

    /** The end of `show`: the new item and its node go on top of the stack. */
    method Push(it: Item)
      requires Valid()
      requires it.node == Node(nextNode) && it.Sound() && !it.startHide
      modifies this
      ensures Valid()
      ensures stack == old(stack) + [it] && views == old(views) + [it.node] && nextNode == old(nextNode) + 1
      ensures overlay == old(overlay) && waiters == old(waiters) && options == old(options) && zIndexOffset == old(zIndexOffset)
      ensures Get() == it.view
    {
      nextNode := nextNode + 1;
      views := views + [it.node];
      stack := stack + [it];
    }
  
    /** What a transfer start works on: the slots of the two views, the overlay, the
        item's records, the node counter and the waits registered so far. */
    ghost function TransferState(it: Item, prev: View, cur: View, ws: seq<Wait>): Progress<View>
      reads this, it, prev, cur
    {
      Progress(Scene(Pair(prev, prev.slots, cur, cur.slots), overlay), it.transferables, nextNode, ws)
    }

    /** The bookkeeping of a started transfer: the record on the item, its node in the
        overlay (and out of the pool of fresh nodes) and its wait with the timer. */
    method Enlist(it: Item, t: Transfer<View>, w: Wait)
      requires Valid() && it in stack && t.renderNode == Node(nextNode)
      requires !it.startShow && FromOneView(it.transferables, t.sourceView)
      modifies this, it
      ensures Valid() && StackKept() && it.KeptButRecords() && FromOneView(it.transferables, t.sourceView)
      ensures it.transferables == Record(old(it.transferables), t)
      ensures overlay == old(overlay) + [t.renderNode] && nextNode == old(nextNode) + 1
      ensures waiters == old(waiters) + [Waiter(it, w, it.options.transfer.transition)]
    {
      it.AddRecord(t);
      overlay := overlay + [t.renderNode];
      nextNode := nextNode + 1;
      waiters := waiters + [Waiter(it, w, it.options.transfer.transition)];
    }

    /** One iteration of `_startTransferableAnimations`, following `StartPair`: the
        pair is taken up only when the previous view has a spec for the source and the
        new view a renderable for the target. */
    method StartTransfer(it: Item, prev: View, cur: View, sourceId: SlotId, targetId: SlotId, ghost ws: seq<Wait>, ghost q: Progress<View>)
      returns (ghost added: seq<Wait>)
      requires Valid() && it in stack && !it.startShow && FromOneView(it.transferables, prev)
      requires TransferState(it, prev, cur, ws) == q
      modifies this, it, prev, cur
      ensures Valid() && FromOneView(it.transferables, prev)
      ensures nextNode == old(nextNode) || nextNode == old(nextNode) + 1
      ensures overlay == old(overlay) + (if nextNode == old(nextNode) then [] else [Node(old(nextNode))])
      ensures StackKept() && it.KeptButRecords()
      ensures prev.specs == old(prev.specs) && cur.specs == old(cur.specs)
      ensures TransferState(it, prev, cur, ws + added)
           == StartPair(q, prev, cur, prev.specs, (sourceId, targetId), it.options.transfer.zIndex)
      ensures waiters == old(waiters) + Register(it, added, it.options.transfer.transition)
    {
      var target := if targetId in cur.slots then Some(cur.slots[targetId]) else None;
      assert target == Transfers.Get(q.scene.layouts, cur, targetId) by {
        PairGet(prev, prev.slots, cur, cur.slots, targetId);
      }
      if sourceId in prev.specs && target.Some? {
        added := TakeTransfer(it, prev, cur, sourceId, targetId, ws, q);
      } else {
        added := [];
        assert ws + added == ws;
        assert StartPair(q, prev, cur, prev.specs, (sourceId, targetId), it.options.transfer.zIndex) == q;
      }
    }

    /** The body of that iteration once both conditions hold: a snapshot of the source
        takes its slot in the previous view, the target is wrapped in an opacity-0 node,
        both originals are recorded on the item, a fresh node joins the overlay and a
        wait for the target's spec is registered. */
    method TakeTransfer(it: Item, prev: View, cur: View, sourceId: SlotId, targetId: SlotId, ghost ws: seq<Wait>, ghost q: Progress<View>)
      returns (ghost added: seq<Wait>)
      requires Valid() && it in stack && !it.startShow && FromOneView(it.transferables, prev)
      requires TransferState(it, prev, cur, ws) == q
      requires sourceId in prev.specs && targetId in cur.slots
      modifies this, it, prev, cur
      ensures Valid() && FromOneView(it.transferables, prev)
      ensures nextNode == old(nextNode) || nextNode == old(nextNode) + 1
      ensures overlay == old(overlay) + (if nextNode == old(nextNode) then [] else [Node(old(nextNode))])
      ensures StackKept() && it.KeptButRecords()
      ensures prev.specs == old(prev.specs) && cur.specs == old(cur.specs)
      ensures TransferState(it, prev, cur, ws + added)
           == StartPair(q, prev, cur, prev.specs, (sourceId, targetId), it.options.transfer.zIndex)
      ensures waiters == old(waiters) + Register(it, added, it.options.transfer.transition)
    {
      var zIndex := it.options.transfer.zIndex;
      var spec := prev.specs[sourceId];
      var source, original := SwapIn(prev, cur, sourceId, targetId);
      var t := Transfer(Node(nextNode), zIndex, spec, sourceId, prev, source, targetId, original);
      var w := Wait(t.renderNode, targetId, spec);
      Enlist(it, t, w);
      added := [w];
      assert added[..0] == [];
      StartPairTaken(q, prev, cur, prev.specs, (sourceId, targetId), zIndex);
    }

    /** The transfers of `items[..i]` have been started from `p0`, registering `ws`
        with the timer after `w0`. */
    ghost predicate StartedUpTo(it: Item, prev: View, cur: View, specs: map<SlotId, Spec>, p0: Progress<View>,
                                w0: seq<Waiter>, items: seq<(SlotId, SlotId)>, i: int, ws: seq<Wait>)
      reads this, it, prev, cur
    {
      && 0 <= i <= |items| && prev.specs == specs && !it.startShow && FromOneView(it.transferables, prev)
      && TransferState(it, prev, cur, ws) == StartAll(p0, prev, cur, specs, items[..i], it.options.transfer.zIndex)
      && waiters == w0 + Register(it, ws, it.options.transfer.transition)
    }

    /** One turn of the loop of `_startTransferableAnimations`. */
    method StartNext(it: Item, prev: View, cur: View, ghost specs: map<SlotId, Spec>, ghost p0: Progress<View>,
                     ghost w0: seq<Waiter>, items: seq<(SlotId, SlotId)>, i: nat, ghost ws: seq<Wait>)
      returns (ghost ws': seq<Wait>)
      requires Valid() && it in stack && i < |items|
      requires StartedUpTo(it, prev, cur, specs, p0, w0, items, i, ws)
      modifies this, it, prev, cur
      ensures Valid() && StackKept() && it.KeptButRecords() && cur.specs == old(cur.specs)
      ensures StartedUpTo(it, prev, cur, specs, p0, w0, items, i + 1, ws')
    {
      ghost var w1 := waiters;
      StartAllStep(p0, prev, cur, specs, items, i, it.options.transfer.zIndex);
      ghost var added := StartTransfer(it, prev, cur, items[i].0, items[i].1, ws, TransferState(it, prev, cur, ws));
      RegisterMore(w0, w1, waiters, it, ws, added, it.options.transfer.transition);
      ws' := ws + added;
    }

    /** `_startTransferableAnimations`: the pairs of the item's transfer options, in key
        order, each as `StartTransfer`; together they follow `StartAll`, and the timer
        gets one registration per transfer started. */
    method StartTransfers(it: Item, prevItem: Item) returns (ghost ws: seq<Wait>)
      requires Valid() && it in stack && prevItem in stack && !it.startShow && it.transferables == []
      modifies this, it, it.view.value, prevItem.view.value
      ensures Valid()
      ensures StackKept() && it.KeptButRecords() && prevItem.view == old(prevItem.view)
      ensures prevItem.view.value.specs == old(prevItem.view.value.specs) && it.view.value.specs == old(it.view.value.specs)
      ensures FromOneView(it.transferables, prevItem.view.value)
      ensures TransfersStarted(it, prevItem.view.value, it.view.value, ws)
    {
      var prev := prevItem.view.value;
      var cur := it.view.value;
      var items := it.options.transfer.items;
      ghost var specs := prev.specs;
      ghost var p0 := TransferState(it, prev, cur, []);
      ws := [];
      var i := 0;
      while i < |items|
        invariant StartedUpTo(it, prev, cur, specs, p0, old(waiters), items, i, ws)
        invariant Valid() && StackKept() && it.KeptButRecords() && prevItem.view == old(prevItem.view)
        invariant cur.specs == old(cur.specs)
      {
        ws := StartNext(it, prev, cur, specs, p0, old(waiters), items, i, ws);
        i := i + 1;
      }
      assert items[..i] == items;
    }

    /** The transfers of `it` from view `prev` to view `cur` were started as `StartAll`
        says, registering `ws` with the timer. */
    twostate predicate TransfersStarted(it: Item, prev: View, cur: View, ws: seq<Wait>)
      reads this, it, prev, cur
    {
      && TransferState(it, prev, cur, ws)
         == StartAll(old(TransferState(it, prev, cur, [])), prev, cur, old(prev.specs),
                     it.options.transfer.items, it.options.transfer.zIndex)
      && waiters == old(waiters) + Register(it, ws, it.options.transfer.transition)
    }

    /** The item at `i` is found at no other index of the stack. */
    lemma OnlyAt(i: int)
      requires Valid() && 0 <= i < |stack|
      ensures forall j :: 0 <= j < |stack| && j != i ==> stack[j] != stack[i]
    {
      forall j | 0 <= j < |stack| && j != i
        ensures stack[j] != stack[i]
      {
        assert views[j] != views[i];
      }
    }

    /** `_startAnimation`, for item `it` with `prevItem` the item below it (if any):
        the item's state follows `AnimationStarted`, and a starting show also starts the
        item's transfers from the view below, as `StartTransfers` does. */
    method StartAnimation(it: Item, prevItem: Option<Item>, size: Size) returns (ghost ws: seq<Wait>)
      requires Valid() && it in stack && (prevItem.Some? ==> prevItem.value in stack)
      modifies this, it, it.view.value, if prevItem.Some? then {prevItem.value.view.value} else {}
      ensures Valid() && StackKept() && it.AnimationStarted(size)
      ensures it.view.value.specs == old(it.view.value.specs)
      ensures prevItem.Some? ==> prevItem.value.view == old(prevItem.value.view)
      ensures prevItem.Some? ==> prevItem.value.view.value.specs == old(prevItem.value.view.value.specs)
      ensures old(it.startShow) && prevItem.Some? ==>
        TransfersStarted(it, prevItem.value.view.value, it.view.value, ws)
      ensures !(old(it.startShow) && prevItem.Some?) ==>
        && ws == [] && it.transferables == old(it.transferables)
        && overlay == old(overlay) && waiters == old(waiters) && nextNode == old(nextNode)
        && unchanged(it.view.value)
        && (prevItem.Some? ==> unchanged(prevItem.value.view.value))
    {
      var show := it.startShow;
      var anims := if show then it.options.show.animations else it.options.hide.animations;
      var pose := Compose(show, anims.GetOr([]), size);
      RestartItem(it, pose);
      ws := [];
      if show && prevItem.Some? {
        ws := StartTransfers(it, prevItem.value);
      }
    }

    /** `Restart` on an item of the stack. */
    method RestartItem(it: Item, pose: Pose)
      requires Valid() && it in stack
      modifies it
      ensures Valid() && it.State() == StartedState(old(it.State()), pose) && it.transferables == old(it.transferables)
    {
      it.Restart(pose);
    }

    /** The states of `items`. */
    function States(items: seq<Item>): (r: seq<ItemState>)
      reads items
      ensures |r| == |items| && forall j :: 0 <= j < |items| ==> r[j] == items[j].State()
    {
      if items == [] then [] else States(items[..|items| - 1]) + [items[|items| - 1].State()]
    }

    /** The transfer records of `items`. */
    function Records(items: seq<Item>): (r: seq<seq<Transfer<View>>>)
      reads items
      ensures |r| == |items| && forall j :: 0 <= j < |items| ==> r[j] == items[j].transferables
    {
      if items == [] then [] else Records(items[..|items| - 1]) + [items[|items| - 1].transferables]
    }

    /** The views of the items on the stack. */
    function ViewsOf(items: seq<Item>): set<View>
      reads items
    {
      set it | it in items && it.view.Some? :: it.view.value
    }

    /** The controller's part of the `World` of views `vs`. */
    ghost function WorldOf(vs: set<View>): World
      reads this, stack, vs
    {
      World(States(stack), Records(stack), Flatten(SlotsOf(vs)), SpecsOf(vs), overlay, waiters, nextNode)
    }

    /** Every item of the stack has its view in `vs`. */
    ghost predicate ViewsIn(vs: set<View>)
      reads this, stack
    {
      forall j :: 0 <= j < |stack| ==> stack[j].view.Some? && stack[j].view.value in vs
    }

    /** `_startAnimations`, run on every `layoutend`: the items take their turns of
        `PassOne`, bottom to top, each with the item below it as the previous item. */
    method LayoutEnd(size: Size)
      requires Valid()
      modifies this, stack, ViewsOf(stack)
      ensures Valid() && StackKept()
      ensures WorldOf(old(ViewsOf(stack))) == Passes(old(WorldOf(ViewsOf(stack))), stack, |stack|, size)
    {
      ghost var vs := ViewsOf(stack);
      assert ViewsIn(vs);
      PassAll(size, vs);
    }

    /** The loop of `_startAnimations` over the stack, bottom to top. */
    method PassAll(size: Size, ghost vs: set<View>)
      requires Valid() && ViewsIn(vs)
      modifies this, stack, vs
      ensures Valid() && StackKept()
      ensures WorldOf(vs) == Passes(old(WorldOf(vs)), stack, |stack|, size)
    {
      var prevItem: Option<Item> := None;
      for i := 0 to |stack|
        invariant Valid() && StackKept() && ViewsIn(vs)
        invariant WorldOf(vs) == Passes(old(WorldOf(vs)), stack, i, size)
        invariant prevItem == if i == 0 then None else Some(stack[i - 1])
      {
        PassAt(i, prevItem, size, vs);
        prevItem := Some(stack[i]);
      }
    }

    /** One turn of the loop of `_startAnimations`, on the item at `i`. */
    method PassAt(i: nat, prevItem: Option<Item>, size: Size, ghost vs: set<View>)
      requires Valid() && ViewsIn(vs) && i < |stack| && prevItem == (if i == 0 then None else Some(stack[i - 1]))
      modifies this, stack, vs
      ensures Valid() && StackKept() && ViewsIn(vs)
      ensures WorldOf(vs) == PassOne(old(WorldOf(vs)), stack, i, size)
    {
      StartAt(i, prevItem, size, vs);
    }

    /** The item at `i` has its animation started if it has one pending, as `PassOne`
        says; only it and the views of it and of the item below it change. */
    method StartAt(i: nat, prevItem: Option<Item>, size: Size, ghost vs: set<View>)
      requires Valid() && ViewsIn(vs) && i < |stack| && prevItem == (if i == 0 then None else Some(stack[i - 1]))
      modifies this, stack[i], stack[i].view.value, if i == 0 then {} else {stack[i - 1].view.value}
      ensures Valid() && StackKept() && ViewsIn(vs)
      ensures WorldOf(vs) == PassOne(old(WorldOf(vs)), stack, i, size)
    {
      var it := stack[i];
      if it.startShow && i > 0 {
        ShowAt(i, size, vs);
      } else if it.startShow || it.startHide {
        ghost var w0 := WorldOf(vs);
        QuietAt(i, prevItem, size, vs);
        PassOneOther(w0, stack, i, size, WorldOf(vs));
      }
    }

    /** `StartAnimation` on the item at `i` that starts its show above another item,
        seen from the whole stack and the views `vs`: the other items and the views
        other than the two involved are as they were, and no view's specs change. */
    method ShowAt(i: nat, size: Size, ghost vs: set<View>)
      requires Valid() && ViewsIn(vs) && 0 < i < |stack| && stack[i].startShow
      modifies this, stack[i], stack[i].view.value, stack[i - 1].view.value
      ensures Valid() && StackKept() && ViewsIn(vs)
      ensures WorldOf(vs) == PassOne(old(WorldOf(vs)), stack, i, size)
    {
      var it := stack[i];
      ghost var w0, m0 := WorldOf(vs), SlotsOf(vs);
      ghost var s := it.State();
      ghost var cur, prev := it.view.value, stack[i - 1].view.value;
      ghost var ws := ShowViewsAt(i, size, vs);
      ShowAssemble(w0, WorldOf(vs), stack, i, size, s, prev, cur, m0, SlotsOf(vs), TransferState(it, prev, cur, ws));
    }

    /** `ShowAt`, item by item. */
    method ShowViewsAt(i: nat, size: Size, ghost vs: set<View>) returns (ghost ws: seq<Wait>)
      requires Valid() && ViewsIn(vs) && 0 < i < |stack| && stack[i].startShow
      modifies this, stack[i], stack[i].view.value, stack[i - 1].view.value
      ensures Valid() && StackKept() && ViewsIn(vs)
      ensures var s := old(stack[i].State()); stack[i].State() == StartedState(s, StartPose(s, size))
      ensures forall j :: 0 <= j < |stack| && j != i ==>
        stack[j].State() == old(stack[j].State()) && stack[j].transferables == old(stack[j].transferables)
      ensures SpecsOf(vs) == old(SpecsOf(vs)) && SlotsOf(vs).Keys == old(SlotsOf(vs)).Keys
      ensures var cur, prev := stack[i].view.value, stack[i - 1].view.value;
        && (forall v :: v in vs && v != prev && v != cur ==> SlotsOf(vs)[v] == old(SlotsOf(vs))[v])
        && TransfersStarted(stack[i], prev, cur, ws)
    {
      ws := ShowRawAt(i, size, vs);
    }

    /** `ShowAt`, item by item and view by view. */
    method ShowRawAt(i: nat, size: Size, ghost vs: set<View>) returns (ghost ws: seq<Wait>)
      requires Valid() && ViewsIn(vs) && 0 < i < |stack| && stack[i].startShow
      modifies this, stack[i], stack[i].view.value, stack[i - 1].view.value
      ensures Valid() && StackKept() && ViewsIn(vs)
      ensures var s := old(stack[i].State()); stack[i].State() == StartedState(s, StartPose(s, size))
      ensures forall j :: 0 <= j < |stack| && j != i ==>
        stack[j].State() == old(stack[j].State()) && stack[j].transferables == old(stack[j].transferables)
      ensures var cur, prev := stack[i].view.value, stack[i - 1].view.value;
        && (forall v :: v in vs ==> v.specs == old(v.specs) && (v != prev && v != cur ==> v.slots == old(v.slots)))
        && TransfersStarted(stack[i], prev, cur, ws)
    {
      OnlyAt(i);
      var it := stack[i];
      ghost var cur, prev := it.view.value, stack[i - 1].view.value;
      ws := StartAnimation(it, Some(stack[i - 1]), size);
      forall v | v in vs
        ensures v.specs == old(v.specs) && (v != prev && v != cur ==> v.slots == old(v.slots))
      {
      }
      forall j | 0 <= j < |stack| && j != i
        ensures stack[j].State() == old(stack[j].State()) && stack[j].transferables == old(stack[j].transferables)
      {
        assert unchanged(stack[j]);
      }
    }

    /** `StartAnimation` on the item at `i` with a pending hide, or a pending show and no
        item below: only the item's own state changes. */
    method QuietAt(i: nat, prevItem: Option<Item>, size: Size, ghost vs: set<View>)
      requires Valid() && ViewsIn(vs) && i < |stack| && prevItem == (if i == 0 then None else Some(stack[i - 1]))
      requires (stack[i].startShow || stack[i].startHide) && !(stack[i].startShow && i > 0)
      modifies this, stack[i], stack[i].view.value, if i == 0 then {} else {stack[i - 1].view.value}
      ensures Valid() && StackKept() && ViewsIn(vs)
      ensures var s := old(stack[i].State()); States(stack) == old(States(stack))[i := StartedState(s, StartPose(s, size))]
      ensures Records(stack) == old(Records(stack)) && SpecsOf(vs) == old(SpecsOf(vs)) && SlotsOf(vs) == old(SlotsOf(vs))
      ensures overlay == old(overlay) && waiters == old(waiters) && nextNode == old(nextNode)
    {
      ghost var states, records := States(stack), Records(stack);
      QuietRawAt(i, prevItem, size, vs);
      SeqAt(states, States(stack), i);
      SeqAt(records, Records(stack), i);
    }

    /** `QuietAt`, item by item and view by view. */
    method QuietRawAt(i: nat, prevItem: Option<Item>, size: Size, ghost vs: set<View>)
      requires Valid() && ViewsIn(vs) && i < |stack| && prevItem == (if i == 0 then None else Some(stack[i - 1]))
      requires (stack[i].startShow || stack[i].startHide) && !(stack[i].startShow && i > 0)
      modifies this, stack[i], stack[i].view.value, if i == 0 then {} else {stack[i - 1].view.value}
      ensures Valid() && StackKept() && ViewsIn(vs)
      ensures var s := old(stack[i].State()); stack[i].State() == StartedState(s, StartPose(s, size))
      ensures forall j :: 0 <= j < |stack| ==> stack[j].transferables == old(stack[j].transferables)
      ensures forall j :: 0 <= j < |stack| && j != i ==> stack[j].State() == old(stack[j].State())
      ensures SpecsOf(vs) == old(SpecsOf(vs)) && SlotsOf(vs) == old(SlotsOf(vs))
      ensures overlay == old(overlay) && waiters == old(waiters) && nextNode == old(nextNode)
    {
      OnlyAt(i);
      var it := stack[i];
      var _ := StartAnimation(it, prevItem, size);
      forall j | 0 <= j < |stack| && j != i
        ensures stack[j].State() == old(stack[j].State()) && stack[j].transferables == old(stack[j].transferables)
      {
        assert unchanged(stack[j]);
      }
    }

    /** The inner loop of `_endTransferableAnimations`: the first overlay entry that is
        `n` is spliced out. */
    method RemoveFromOverlay(n: Node)
      requires Valid()
      modifies this
      ensures Valid() && StackKept() && waiters == old(waiters) && nextNode == old(nextNode)
      ensures overlay == RemoveFirst(old(overlay), n)
    {
      var i := 0;
      while i < |overlay|
        invariant 0 <= i <= |overlay| && n !in overlay[..i]
        invariant overlay == old(overlay)
      {
        if overlay[i] == n {
          FirstIndexIs(overlay, n, i);
          overlay := overlay[..i] + overlay[i + 1..];
          return;
        }
        i := i + 1;
      }
      assert overlay[..i] == overlay;
    }

    /** One turn of the loop of `_endTransferableAnimations`, for a record taken from
        `src`: its node leaves the overlay and both slots get back what they held. */
    method EndOneTransfer(src: View, cur: View, t: Transfer<View>)
      requires Valid() && t.sourceView == src
      modifies this, src, cur
      ensures Valid() && StackKept() && waiters == old(waiters) && nextNode == old(nextNode)
      ensures Scene(Pair(src, src.slots, cur, cur.slots), overlay)
           == EndOne(old(Scene(Pair(src, src.slots, cur, cur.slots), overlay)), cur, t)
      ensures src.specs == old(src.specs) && cur.specs == old(cur.specs)
    {
      RemoveFromOverlay(t.renderNode);
      SwapBack(t, cur);
    }

    /** `_endTransferableAnimations`, for an item whose records were all taken from
        `src`: the records are undone in key order, as `EndAll` says, and the item is left
        without records. */
    method EndTransfers(it: Item, src: View)
      requires Valid() && it in stack && FromOneView(it.transferables, src)
      modifies this, it, it.view.value, src
      ensures Valid() && StackKept() && it.State() == old(it.State())
      ensures it.transferables == [] && waiters == old(waiters) && nextNode == old(nextNode)
      ensures Scene(Pair(src, src.slots, it.view.value, it.view.value.slots), overlay)
           == EndAll(old(Scene(Pair(src, src.slots, it.view.value, it.view.value.slots), overlay)),
                     it.view.value, old(it.transferables))
      ensures src.specs == old(src.specs) && it.view.value.specs == old(it.view.value.specs)
    {
      var cur := it.view.value;
      var rs := it.transferables;
      ghost var s0 := Scene(Pair(src, src.slots, cur, cur.slots), overlay);
      for i := 0 to |rs|
        invariant Valid() && StackKept() && it.State() == old(it.State()) && it.transferables == rs
        invariant waiters == old(waiters) && nextNode == old(nextNode)
        invariant src.specs == old(src.specs) && cur.specs == old(cur.specs)
        invariant EndAll(Scene(Pair(src, src.slots, cur, cur.slots), overlay), cur, rs[i..]) == EndAll(s0, cur, rs)
      {
        assert rs[i] in rs && rs[i..][1..] == rs[i + 1..];
        EndOneTransfer(src, cur, rs[i]);
      }
      ForgetRecords(it);
    }

    /** The item is left without records once they have all been ended. */
    method ForgetRecords(it: Item)
      requires Valid() && it in stack
      modifies it
      ensures Valid() && it.State() == old(it.State()) && it.transferables == []
    {
      it.transferables := [];
    }

    /** The removal callback `_hide` installs: the item and its node leave the stack
        at the item's index (`indexOf`), and the item lets go of its view. */
    method RemoveItem(it: Item)
      requires Valid() && it in stack
      modifies this, it
      ensures Valid()
      ensures var k := FirstIndex(old(stack), it);
        && stack == old(stack)[..k] + old(stack)[k + 1..]
        && views == old(views)[..k] + old(views)[k + 1..]
      ensures it !in stack && it.view == None
      ensures (it.options, it.callback, it.startShow, it.startHide, it.motion, it.pending, it.transferables)
           == old((it.options, it.callback, it.startShow, it.startHide, it.motion, it.pending, it.transferables))
      ensures overlay == old(overlay) && waiters == old(waiters) && nextNode == old(nextNode)
      ensures options == old(options) && zIndexOffset == old(zIndexOffset)
    {
      var k := FirstIndex(stack, it);
      OnlyAt(k);
      SpliceOut(k);
      it.view := None;
    }

    /** `splice(index, 1)` on both the views and the stack. */
    method SpliceOut(k: nat)
      requires Valid() && k < |stack|
      modifies this
      ensures Valid()
      ensures stack == old(stack)[..k] + old(stack)[k + 1..] && views == old(views)[..k] + old(views)[k + 1..]
      ensures overlay == old(overlay) && waiters == old(waiters) && nextNode == old(nextNode)
      ensures options == old(options) && zIndexOffset == old(zIndexOffset)
    {
      views := views[..k] + views[k + 1..];
      stack := stack[..k] + stack[k + 1..];
    }

    /** The view the records of an item were taken from (any view when there are none). */
    function SourceView(rs: seq<Transfer<View>>, otherwise: View): View {
      if rs == [] then otherwise else rs[0].sourceView
    }

    /** The item's modifier completing the transform transition `_startAnimation`
        started: the callback it carries runs. After a show that ends the item's transfers
        and hands back the caller's callback; after a hide it removes the item and hands
        back the caller's callback. A halted transition calls nothing. */
    method Settle(it: Item) returns (fired: Option<UserCallback>, ghost src: View)
      requires Valid() && it in stack
      modifies this, it, it.view.value, {SourceView(it.transferables, it.view.value)}
      ensures Valid() && it.pending == None
      ensures (it.options, it.callback, it.startShow, it.startHide, it.motion)
           == old((it.options, it.callback, it.startShow, it.startHide, it.motion))
      ensures waiters == old(waiters) && nextNode == old(nextNode) && options == old(options) && zIndexOffset == old(zIndexOffset)
      ensures src == SourceView(old(it.transferables), old(it.view.value))
      ensures old(it.pending).None? ==> fired == None && unchanged(this) && unchanged(it)
      ensures old(it.pending).Some? && old(it.pending).value.ShowDone? ==>
        && fired == old(it.pending).value.user && stack == old(stack) && it.transferables == []
        && it.view == old(it.view) && src.specs == old(src.specs) && it.view.value.specs == old(it.view.value.specs)
        && Scene(Pair(src, src.slots, it.view.value, it.view.value.slots), overlay)
           == EndAll(old(Scene(Pair(src, src.slots, it.view.value, it.view.value.slots), overlay)),
                     it.view.value, old(it.transferables))
      ensures old(it.pending).Some? && old(it.pending).value.HideDone? ==>
        && fired == old(it.pending).value.user && it !in stack && it.view == None
        && stack == old(stack)[..FirstIndex(old(stack), it)] + old(stack)[FirstIndex(old(stack), it) + 1..]
        && views == old(views)[..FirstIndex(old(stack), it)] + old(views)[FirstIndex(old(stack), it) + 1..]
        && overlay == old(overlay) && it.transferables == old(it.transferables)
        && unchanged(old(it.view.value)) && unchanged(src)
    {
      var from := SourceView(it.transferables, it.view.value);
      src := from;
      var p := it.pending;
      fired := None;
      if p.Some? {
        it.pending := None;
        match p.value
        case ShowDone(u) =>
          EndTransfers(it, from);
          fired := u;
        case HideDone(u) =>
          RemoveItem(it);
          fired := u;
      }
    }

    /** One tick of the timer: every registration runs `_waitForSettledSpec` once, in
        registration order. Those still waiting stay registered; a cleared or a fired
        one is unregistered, and a fired one starts its node's animation. */
    method Tick() returns (launches: seq<Launch>)
      requires Valid()
      modifies this
      ensures Valid() && StackKept() && overlay == old(overlay) && nextNode == old(nextNode)
      ensures waiters == old(StillWaiting(waiters)) && launches == old(Launches(waiters))
    {
      launches := Launches(waiters);
      waiters := StillWaiting(waiters);
    }

    /** `ViewStackLayout` on the controller's renderables: the calls are those of
        `Calls`, and among them the views are set once each, in stack order, view `i`
        at z `i * zIndexOffset`. */
    method Layout(size: Size) returns (calls: seq<SetCall>)
      requires Valid()
      ensures calls == Calls(views, Owned(stack), overlay, size, zIndexOffset)
      ensures Only(calls, set n | n in views) == InStackOrder(views, size, zIndexOffset)
    {
      var owned := Owned(stack);
      calls := SetAll(views, owned, overlay, size, zIndexOffset);
      ghost var nodes := set n | n in views;
      assert forall n :: n in overlay ==> n !in nodes;
      ViewsInStackOrder(views, owned, overlay, size, zIndexOffset, nodes);
    }
  }
}
