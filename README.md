# famous-flex AnimationController, modelled in Dafny

This project models two files of `famous-flex-animationcontroller` and proves properties of the model.

`AnimationController` is a view that shows one view at a time. Each `show` pushes an
item onto a view stack and lays its view out on top of the previous ones. On the next
`layoutend` event it starts the item's show animation and starts the hide animation of
the item below it. During a show, renderables named in the `transfer.items` option are
lifted out of the previous view into an overlay and put back when the show settles.
`PhoneFrameView` lays a content area out inside a centred phone image, or fills the
context on a phone or in a small context.

The model is split by concern:

- `wrappers.dfy`: `Option` (JavaScript's `undefined`) and the `||` chains the option code uses.
- `geometry.dfy`: transforms kept symbolic, as sequences of primitive terms. Identity is the empty sequence and `Transform.multiply` is concatenation. Rotations are in half-turns, so `Math.PI` is `1.0`.
- `animations.dfy`: the `animations` table and the composition loop of `_startAnimation`.
- `item_options.dfy`: option resolution in `_createItem`, and the hide override of `_hide`.
- `transfers.dfy`: the transfer hand-off stated on values, and the round trip proved there.
  - The state is the slots of the views involved, keyed by (view, id), plus the overlay of transfer nodes and an item's records.
- `transfer_animation.dfy`: `_animateTransferable` and one run of `_waitForSettledSpec`.
- `stack_layout.dfy`: `ViewStackLayout` as the sequence of `context.set` calls it makes, together with its loops.
- `controller.dfy`: the controller and the objects it changes in place, as classes. The methods are proved against the functions above.
  - `View`: a view's layout, with slots and settled specs.
  - `Item`: the stack entry.
  - `AnimationController`: `_viewStack`, `_renderables.views`, `_renderables.transferables` and the timer's registrations.
- `phone_frame.dfy`: the `PhoneFrameView` layout callback and its geometry.

External events are inputs the model receives:
- `LayoutEnd(size)` is the `layoutend` event.
- `Settle(item)` is the item's transform transition completing, which runs the callback the transition carries.
- `Tick()` is one timer frame, which runs every registered `_waitForSettledSpec` once.

Some behaviours of the code that the model keeps as written:
- The controller has no `halt()` of its own; only an item's modifier is halted, by `_startAnimation`.
- Items are never queued. `show` marks the visible item for hiding and pushes the new item at once (src/AnimationController.js:432-446).
- Showing the view that is already on top pushes a second item for the same view.
- `hide()` with nothing visible calls the caller's callback at once (src/AnimationController.js:400-406).

## Model

| member | source | states |
|---|---|---|
| Wrappers.FirstDefined | src/AnimationController.js:384-388 | the value a chain of JavaScript or-operators yields is undefined exactly when every operand is, and otherwise is the first defined operand |
| Wrappers.FirstOfTwo | src/AnimationController.js:376 | a chain of two or-operators picks the first defined of its operands |
| Wrappers.FirstOfThree | src/AnimationController.js:410-411 | the chain of three or-operators in `_hide` picks the first defined of its operands |
| Wrappers.FirstOfFour | src/AnimationController.js:367-388 | the controller's section-or-generic fallback, followed by the call's section, generic and resolved chain, picks the first defined of the four values, in that order |
| ItemOptions.CreateOptions | src/AnimationController.js:360-391 | each show, hide and transfer transition and animation set is the first defined of: the call's section value, the call's generic value, the controller's section value, the controller's generic value. `transfer.items` takes the call's, else the controller's, else no pairs, and never a generic value. `transfer.zIndex` keeps any call value that is defined, 0 included, else the controller's |
| ItemOptions.MergeSection | src/AnimationController.js:384-388 | a call's section laid over a resolved section: each value is the first defined of the call's section value, the call's generic value and the resolved value |
| ItemOptions.HideOverride | src/AnimationController.js:409-412 | `_hide` with options sets the hide transition and animations to the first defined of the call's hide value, the call's generic value and the item's own; show and transfer options are untouched |
| Animations.Apply | src/AnimationController.js:76-107 | an entry of the table returns undefined exactly for a slide or flip in a direction other than left, right, up and down; fade returns only an opacity, every other result only a transform of one term |
| Animations.OppositeAll | src/AnimationController.js:77-106 | the opposite motion keeps the number of terms and negates each translation and rotation term |
| Animations.Compose | src/AnimationController.js:306-319 | the loop over the option set yields the left-to-right product, from identity, of the results' transforms and the product, from 1, of the defined opacities (`Composed`) |
| Animations.TransformAppend | src/AnimationController.js:309-319 | composition distributes over concatenation of option sets: the transform of `a + b` is that of `a` followed by that of `b` |
| Animations.Neutral | src/AnimationController.js:77-88 | an undefined value, or a slide or flip in an unknown direction, anywhere in the set changes neither transform nor opacity |
| Animations.NeutralLast | src/AnimationController.js:310-318 | such an entry placed last contributes identity and 1 |
| Animations.HideIsOppositeOfShow | src/AnimationController.js:77-106 | for sets of slides and flips, the hide transform is the show transform with every term reversed, and the opacity is 1 both ways |
| TransferAnimation.AnimateTargets | src/AnimationController.js:201-211 | transform, opacity and size are each animated exactly when either spec defines them. They land on the target's value, or on identity, opacity 1 and the source size when only the source defines them |
| TransferAnimation.PollOnce | src/AnimationController.js:186-195 | one run of `_waitForSettledSpec` clears exactly when `item.view` is unset, calls back exactly when the view is set and has a spec, with that spec, and otherwise keeps waiting |
| TransferAnimation.CallsBackOnce | src/AnimationController.js:186-195 | a registered wait calls back at most once; it calls back with `s` exactly when `s` is the first spec seen while `item.view` is set, with no earlier frame cleared |
| Transfers.Put | src/AnimationController.js:179-181 | `replace(id, r)` makes the slot hold `r` and leaves every other slot of every view as it was |
| Transfers.Record | src/AnimationController.js:240-247 | `item.transferables[targetId] = t` appends a record for a new target id; no other record appears |
| Transfers.RecordOverwrites | src/AnimationController.js:240-247 | with a record for the same target id at index `i` (the first such), the assignment overwrites that record in place and keeps its position |
| Transfers.FirstIndex | src/AnimationController.js:415 | `indexOf`: the index holds the item and no earlier index does |
| Transfers.FirstIndexIs | src/AnimationController.js:275-279 | the index the loop stops at is the first index of the node |
| Transfers.RemoveFirst | src/AnimationController.js:275-280 | the overlay loses the first occurrence of the node and nothing else, and is unchanged when the node is absent |
| Transfers.StartPair | src/AnimationController.js:218-261 | a pair is taken up only when the previous view has a spec for the source id and the new view a renderable for the target id. Then the source slot holds a snapshot at the source spec, the target slot holds the target wrapped at opacity 0, one fresh node joins the overlay, one record keeps both originals, one wait is registered, and no other slot changes. Otherwise nothing changes |
| Transfers.StartAllStep | src/AnimationController.js:218-219 | the loop over `transfer.items` handles the pairs one after another in key order |
| Transfers.StartAll | src/AnimationController.js:217-263 | the pairs only add to the overlay and to the registered waits, one wait per node added, and the nodes added are the next fresh ones, in order |
| Transfers.StartAllShape | src/AnimationController.js:218-248 | after starting the transfers, every record was taken from the previous view for pairs of `transfer.items`, on a node created by this run, and the overlay holds only created nodes |
| Transfers.RemoveFirstCons | src/AnimationController.js:275-280 | when the overlay does not start with the node, its first occurrence is one past the first occurrence in the tail, and removing it keeps the head |
| Transfers.RemoveFirstCommutes | src/AnimationController.js:275-280 | removing two nodes from the overlay gives the same result in either order |
| Transfers.PutCommutes | src/AnimationController.js:281-282 | two `replace` calls on different slots commute |
| Transfers.LayoutsExt | src/AnimationController.js:179-181 | layouts that agree on every slot are the same layouts |
| Transfers.EndOneCommutes | src/AnimationController.js:273-283 | ending two records that touch different slots and nodes gives the same scene in either order |
| Transfers.EndLastFirst | src/AnimationController.js:273-283 | ending records `rs + [y]` in key order equals ending `y` first, when `y` is disjoint from every record of `rs` |
| Transfers.UndoPair | src/AnimationController.js:275-282 | ending the record of one accepted pair restores both slots and the overlay to what they were before the pair was taken |
| Transfers.LastPairDisjoint | src/AnimationController.js:240-248 | with distinct source and target ids, the record of the last pair touches no slot or node of an earlier record |
| Transfers.RoundTrip | src/AnimationController.js:217-286 | starting the transfers of an item with none and then ending them puts back every slot of both views and leaves the overlay as it was. This needs the two views to differ and the source and target ids to be distinct |
| Transfers.EndOneRestores | src/AnimationController.js:273-283 | ending one record (`EndOne`) gives the target slot back its original and the source slot back its original (unless it is the same slot), changes no other slot, and removes one occurrence of the record's node from the overlay |
| Transfers.EndAllKeeps | src/AnimationController.js:270-286 | ending all records (`EndAll`) changes no slot that no record was taken from or put into |
| Transfers.EndAllNodes | src/AnimationController.js:270-286 | ending all records removes exactly the records' nodes from the overlay, one occurrence each |
| Transfers.StartPairRestrict | src/AnimationController.js:218-261 | one pair reads and writes only the slots of the previous and the new view: on the slots of those two views it does the same, and every other view keeps its slots |
| Transfers.StartAllRestrict | src/AnimationController.js:217-263 | the same holds for all pairs of `transfer.items` |
| Transfers.RemoveFirstAppended | src/AnimationController.js:248-280 | removing a node just pushed onto an overlay that did not hold it gives the overlay back |
| StackLayout.DepthIsProduct | src/AnimationController.js:116-140 | the z of view `i` is `i * zIndexOffset.views` |
| StackLayout.Matches | src/AnimationController.js:129-135 | the inner loop sets overlay node `n` exactly when the item owns a record on `n` |
| StackLayout.OverlayCalls | src/AnimationController.js:128-137 | for one item, exactly the overlay nodes the item owns are set, at full size and the item's z |
| StackLayout.SetMatches | src/AnimationController.js:129-136 | the loop over the item's records makes the calls `Matches` gives |
| StackLayout.SetOverlay | src/AnimationController.js:128-137 | the loop over the overlay makes the calls `OverlayCalls` gives |
| StackLayout.Calls | src/AnimationController.js:113-142 | the layout makes at least one call per view |
| StackLayout.SetAll | src/AnimationController.js:113-142 | the loop over the views, with z growing by the offset, makes the calls `Calls` gives |
| StackLayout.CallsSound | src/AnimationController.js:120-141 | every call sets a view or an overlay node owned by item `i`, at full size and at view `i`'s z; overlay nodes no item owns are never set |
| StackLayout.CallsComplete | src/AnimationController.js:120-141 | every view is set, and every overlay node an item owns is set at that item's z |
| StackLayout.OnlyAppend | src/AnimationController.js:120-141 | selecting the calls on given nodes distributes over concatenation |
| StackLayout.OnlyNone | src/AnimationController.js:128-137 | no call is selected when none is on the given nodes |
| StackLayout.OverlayNotInNodes | src/AnimationController.js:128-137 | an item's overlay calls set no view node |
| StackLayout.InStackOrder | src/AnimationController.js:120-124 | one call per view, in stack order |
| StackLayout.InStackOrderSnoc | src/AnimationController.js:120-141 | the expected calls of a stack are those of the stack without its top view, then the top view's call |
| StackLayout.ViewsInStackOrder | src/AnimationController.js:120-141 | the views are set once each, in stack order, view `i` at full size and z `i * offset` |
| Controller.View.constructor | src/AnimationController.js:165-181 | a view starts with the given slots and settled specs |
| Controller.View.Replace | src/AnimationController.js:179-181 | `replace` returns what the slot held and puts the new renderable in it; the specs are untouched |
| Controller.View.SettleSpec | src/AnimationController.js:165-167 | the view's layout settles a spec for a slot id, which `getSpec` then returns; the other specs and all slots are unchanged |
| Controller.PairGet | src/AnimationController.js:172-174 | reading a slot of one of two views through their joint slots |
| Controller.PairPut | src/AnimationController.js:179-181 | replacing a slot of one of two views is a `Put` on their joint slots |
| Controller.SwapIn | src/AnimationController.js:227-230 | the two `replace` calls that start a transfer: the source slot takes a snapshot, the target slot takes the target at opacity 0, and both originals are returned |
| Controller.SwapBack | src/AnimationController.js:281-282 | the two `replace` calls that end a transfer put back the renderables the record remembers |
| Controller.Item.constructor | src/AnimationController.js:360-382 | a new item holds the view, the resolved options and the show callback, is flagged to show and not to hide, and has no records and no running transition |
| Controller.Item.Restart | src/AnimationController.js:320-335 | `_startAnimation`'s modifier calls. `halt` drops any running callback. A show clears only the show flag and runs from the composed pose to rest with the callback. Otherwise a hide clears the hide flag and runs from the current pose to the composed pose with the callback |
| Controller.Item.AddRecord | src/AnimationController.js:240-247 | the records become `Record(old, t)`; every other field is unchanged |
| Controller.RegisterAppend | src/AnimationController.js:260 | registering two batches of waits registers their concatenation |
| Controller.RegisterMore | src/AnimationController.js:260 | registering the waits of one pair after those of the earlier pairs registers the waits of all of them |
| Controller.Poll | src/AnimationController.js:186-195 | a registration clears exactly when its item has lost its view, fires exactly when the view has a settled spec for the target id, with that spec, and otherwise waits |
| Controller.TickSound | src/AnimationController.js:186-195 | after one timer frame, exactly the registrations still waiting remain. Every registration whose view has a spec for the target launches exactly its own animation, and nothing else launches |
| Controller.RenderNodes | src/AnimationController.js:129-130 | the record nodes of an item, one per record, in key order |
| Controller.Owned | src/AnimationController.js:127-130 | for each item of the stack, its record nodes |
| Controller.PassOne | src/AnimationController.js:294-335 | the turn of one item in `_startAnimations`. Without a pending show or hide nothing changes. Otherwise the item restarts (`StartedState`); a show with an item below also starts the transfers from that item's view, as `StartAll` on the joint slots of all views, and registers one wait per transfer. A hide, or a show with no item below, changes nothing but the item's state |
| Controller.Passes | src/AnimationController.js:291-300 | the turns of the first `n` items of the stack, bottom to top |
| Controller.PassesStates | src/AnimationController.js:291-300 | after the turns of the first `n` items, each of them is in the state its own turn leaves it in, whatever the items below it did; the items above are untouched |
| Controller.PassesRecords | src/AnimationController.js:291-300 | only an item that shows above another item gets new records; every other item keeps its records |
| Controller.PassesQuiet | src/AnimationController.js:291-300 | with no show above another item, the pass changes the items' states only: no record, slot, spec, overlay node or registration |
| Controller.PassesGrow | src/AnimationController.js:291-300 | the pass only adds to the overlay and to the registrations, adds the next fresh nodes in order, and leaves every view's specs alone |
| Controller.PairIsRestrict | src/AnimationController.js:172-181 | the joint slots of two views are the slots of all views seen through those two |
| Controller.LiftStartAll | src/AnimationController.js:217-263 | starting the transfers on the joint slots of the two views involved is starting them on the joint slots of all views, when no other view changes |
| Controller.AnimationController.constructor | src/AnimationController.js:147-157 | a new controller has an empty stack, no views, no overlay and no registrations |
| Controller.AnimationController.GetItem | src/AnimationController.js:342-345 | `_getItem` is defined exactly when the stack is non-empty and its last item is not flagged to hide, and it is then that item |
| Controller.AnimationController.Get | src/AnimationController.js:352-355 | `get` is defined exactly when `_getItem` is, and it is then the last item's view |
| Controller.AnimationController.HideItem | src/AnimationController.js:400-425 | with no visible item, the callback is due at once and nothing changes. Otherwise only the top item's hide flag, hide options and callback change, the callback becoming the removal closure, and `get` is undefined afterwards |
| Controller.AnimationController.Hide | src/AnimationController.js:453-456 | `hide` is `_hide` with the caller's options and callback: with no visible item the callback is due at once and nothing changes; otherwise only the top item's hide flag, hide options and callback change, and `get` is undefined afterwards |
| Controller.AnimationController.Show | src/AnimationController.js:432-446 | `show` first hides the visible item with its own options and no callback. It then appends exactly one item, holding the view, flagged to show, with `_createItem`'s options and the show callback. The new item's node is the next fresh node, appended to `_renderables.views`; the stack and `_renderables.views` stay parallel, and `get` returns the view. The item below keeps its view, flags, records and pose; with nothing visible before, the items already there are untouched; the overlay and registrations are unchanged |
| Controller.AnimationController.Push | src/AnimationController.js:442-443 | the item and its new node go at the end of both parallel arrays |
| Controller.AnimationController.Enlist | src/AnimationController.js:240-260 | the record joins the item, its node joins the overlay and one wait is registered |
| Controller.AnimationController.StartTransfer | src/AnimationController.js:219-261 | one iteration of `_startTransferableAnimations` changes the views, the overlay and the item as `StartPair` says, and registers the waits it started |
| Controller.AnimationController.TakeTransfer | src/AnimationController.js:222-261 | the body of an accepted pair, as `StartPair` says for it |
| Controller.AnimationController.StartNext | src/AnimationController.js:218-262 | one more pair of `transfer.items` has been handled |
| Controller.AnimationController.StartTransfers | src/AnimationController.js:217-263 | `_startTransferableAnimations` follows `StartAll` over the pairs of `transfer.items` in key order and registers one wait per transfer started |
| Controller.AnimationController.OnlyAt | src/AnimationController.js:293-294 | an item sits at one index of the stack only |
| Controller.AnimationController.StartAnimation | src/AnimationController.js:305-336 | the item is restarted as `StartedState` says, with the pose composed from its show or its hide animations. Transfers start only on a show with an item below, from that item's view; otherwise neither view, the overlay, the registrations nor the node counter changes. No view's specs change |
| Controller.AnimationController.RestartItem | src/AnimationController.js:320-335 | the modifier calls on an item of the stack |
| Controller.AnimationController.States | src/AnimationController.js:293-294 | the state of each item of the stack |
| Controller.AnimationController.Records | src/AnimationController.js:293-294 | the records of each item of the stack |
| Controller.AnimationController.LayoutEnd | src/AnimationController.js:291-300 | the items' states and records, every view's slots and specs, the overlay, the registrations and the node counter become what `Passes` gives over the whole stack; the stack and `_renderables.views` are unchanged |
| Controller.AnimationController.PassAll | src/AnimationController.js:291-299 | after the loop's first `i` turns, the state is `Passes` of the first `i` items |
| Controller.AnimationController.PassAt | src/AnimationController.js:294-298 | one turn of the loop changes the state as `PassOne` says |
| Controller.AnimationController.StartAt | src/AnimationController.js:295-297 | the turn of the item at `i`, as `PassOne` says |
| Controller.AnimationController.ShowAt | src/AnimationController.js:319-328 | the turn of an item that shows above another item, as `PassOne` says |
| Controller.AnimationController.QuietAt | src/AnimationController.js:305-336 | the turn of an item with a pending hide, or a pending show and no item below: only its state changes |
| Controller.AnimationController.RemoveFromOverlay | src/AnimationController.js:275-280 | the inner loop removes the first occurrence of the node from the overlay and nothing else |
| Controller.AnimationController.EndOneTransfer | src/AnimationController.js:274-282 | one iteration of `_endTransferableAnimations` changes the scene as `EndOne` says; neither view's specs change |
| Controller.AnimationController.EndTransfers | src/AnimationController.js:270-286 | the records are undone in key order, as `EndAll` says. The item is left with no records and its other fields unchanged, and neither view's specs change |
| Controller.AnimationController.RemoveItem | src/AnimationController.js:414-419 | the removal closure takes the item out of the stack and `_renderables.views` at the same index, keeps the order of the rest and clears `item.view` |
| Controller.AnimationController.SpliceOut | src/AnimationController.js:416-417 | `splice(index, 1)` on both parallel arrays |
| Controller.AnimationController.Settle | src/AnimationController.js:413-440 | a completed transition runs the callback it carries. After a show, the item's transfers end and the caller's callback is due. After a hide, the item is removed first, and the caller's callback is due after that. A halted transition calls nothing and changes nothing. The item's options, flags and pose, the registrations and the node counter never change; after a show the item keeps its view and neither view's specs change; after a hide the item's view node leaves `_renderables.views`, the overlay, the item's records and both views are untouched, so a hide that settles before the show never ends the item's transfers |
| Controller.AnimationController.Tick | src/AnimationController.js:186-195 | one frame of the timer keeps the registrations `StillWaiting` gives and launches the animations `Launches` gives (see `TickSound`) |
| Controller.AnimationController.Layout | src/AnimationController.js:113-142 | the layout makes the calls `Calls` gives, and among them the views are set once each, in stack order |
| PhoneFrame.Panels | src/PhoneFrameView.js:77-129 | the names set, in call order |
| PhoneFrame.Placed | src/PhoneFrameView.js:77-129 | the rectangle a name was last set to, defined exactly when the name was set |
| PhoneFrame.CompactLayout | src/PhoneFrameView.js:79-90 | content, inner and transparentTop are set, in that order, each filling the context from its origin; inner lies behind content and transparentTop in front of it |
| PhoneFrame.FramedLayout | src/PhoneFrameView.js:93-126 | image, left, right, top, bottom, content and inner are set, in that order; inner lies behind content, content behind the four border panels, and those behind the image |
| PhoneFrame.FrameLayout | src/PhoneFrameView.js:77-129 | the compact branch sets content, inner and transparentTop; the framed branch sets image, left, right, top, bottom, content and inner |
| PhoneFrame.SetOnce | src/PhoneFrameView.js:77-129 | no name is set twice in one layout |
| PhoneFrame.BranchChoice | src/PhoneFrameView.js:78-91 | the compact layout is used exactly on a phone or when the context is narrower or lower than the image. The image is then not set, and content, inner and transparentTop fill the context at z 1, 0 and 100 |
| PhoneFrame.ImageCentred | src/PhoneFrameView.js:93-96 | the image keeps its size at z 100, with equal non-negative gaps left and right, and above and below |
| PhoneFrame.ContentInset | src/PhoneFrameView.js:113-127 | the content is the image inset by the four margins, at z 1; inner has the same rectangle at z 0 |
| PhoneFrame.BordersTile | src/PhoneFrameView.js:97-112 | left runs from x 0 to content's left edge and right from content's right edge to the context's width; top runs from y 0 to content's top edge and bottom from content's bottom edge to the context's height; all four span the context the other way at z 99 |
| PhoneFrame.FramedCoversContext | src/PhoneFrameView.js:97-127 | every point of the context lies in the content or in a border panel |
| PhoneFrame.DefaultContent | src/PhoneFrameView.js:113-123 | with the default options, the content is 280 by 500, 60 in from the image's sides and 100 in from its top and bottom |

## Left out

- Transitions (`StateModifier` tweening and easing curves) are not modelled. A started transition is recorded as `Motion` on the item, and its completion is the `Settle` event.
- A transition with an undefined `transition` option calls its callback at once in the engine. The model always waits for a later `Settle`.
- `Transform` matrices are not modelled. Transforms are symbolic term sequences, and `Math.PI` is the rotation `1.0` half-turn.
- `Timer.every`/`Timer.clear` scheduling and the `layoutend` wiring are not modelled. They become the `Tick` and `LayoutEnd` events.
- `Tick` runs every registration once per frame. The engine's order of timer callbacks within one frame is not modelled.
- The launched transfer animation is returned as a `Launch` value. The node's modifier itself is not modelled.
- `reflowLayout` is not modelled. It only asks the layout engine for a new pass, which the model gets as a `LayoutEnd` or `Layout` call.
- `pipe`/`unpipe` of events, `RenderNode`/`Modifier` construction and `LayoutController` internals are foreign library calls and are not modelled.
  - A view's layout is a slot map plus a map of settled specs.
  - A render node is a `Node` with a fresh id.
- `item.mod`'s target values are modelled as the `Motion` the item runs, not as modifier state.
- The layout of the items themselves (`ViewStackLayout` calls) is a returned call list, not engine state.
- `AnimationController.setOptions` and `DEFAULT_OPTIONS` (src/AnimationController.js:45-71) are taken as given. The controller receives its options and its `zIndexOffset.views` in the constructor.
- Controller.AnimationController.Show: takes a view. `show(undefined)` runs `_hide` and then throws a TypeError at `item.view.pipe` (src/AnimationController.js:441); the model has no such call and no exception.
- Animations: an option set names only keys of the `animations` table. An unknown key makes the lookup at src/AnimationController.js:311 undefined and the call throws a TypeError; the model has no such key and no exception.
- Controller.View.SettleSpec: the layout pass that settles specs is not modelled, only its outcome. A spec is kept by slot id, so a slot whose renderable was replaced keeps its previous spec until the next settle.
- Controller.AnimationController.Settle: requires the item to be in the stack. The removal closure uses `indexOf`, and a second run of it on a removed item would splice index -1.
- Controller.AnimationController.Settle: the records of an item are modelled as all taken from one view. `_startTransferableAnimations` only runs once per item, on its show, with one previous view.
- Animations: the opacity half of distributing composition over concatenation (`a + b` has the product of the opacities of `a` and `b`) is not stated as a lemma; `Compose` states the product for each option set.
- Transfers.RoundTrip: stated for two distinct views and distinct source and target ids. With a repeated target id the record at src/AnimationController.js:240 is overwritten, and the first original renderable is lost. Source ids are distinct because `transfer.items` is an object keyed by source id (src/AnimationController.js:218); a repeated source id would leave a snapshot in the previous view after the round trip, so the model requires that too.
- Controller.AnimationController.Tick: stated against the functions `StillWaiting` and `Launches`; their meaning is proved in `TickSound`.
- `isMobile.phone` is a parameter of the frame layout. `_createRenderables` and `setContent` of `PhoneFrameView` only build surfaces and are not modelled.
- `PhoneFrame.FrameLayout`: `context.set` is taken to hand back the size and translation it was given, which is what the framed branch reads from `image` and `content`.
- src/ViewContainer.js and src/main.js are not part of this model. They are an unfinished view and the application bootstrap.
