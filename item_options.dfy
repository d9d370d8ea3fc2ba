/** The option sets of the controller and of a single `show`/`hide` call, and how
    `_createItem` and `_hide` resolve them into the options one item animates with. */
module ItemOptions {
  import opened Wrappers
  import opened Animations

  /** A transition as the engine takes it, `{duration, curve}`; the curve is named. */
  datatype Transition = Transition(duration: real, curve: string)

  /** The id of a renderable inside a view's layout. */
  type SlotId = string

  /** `transfer.items`: (source id, target id) pairs in key order. */
  type TransferItems = seq<(SlotId, SlotId)>

  /** A `show` or `hide` section of an options object. */
  datatype Section = Section(transition: Option<Transition>, animations: Option<AnimationSet>)

  /** The `transfer` section of an options object. */
  datatype TransferSection = TransferSection(transition: Option<Transition>, items: Option<TransferItems>, zIndex: Option<real>)

  /** An options object: the controller's own, or one passed to `show` or `hide`. A
      section that is absent is written as a section whose fields are all undefined;
      the source reads both the same way. */
  datatype Options = Options(
    transition: Option<Transition>,
    animations: Option<AnimationSet>,
    show: Section,
    hide: Section,
    transfer: TransferSection)

  const NoSection := Section(None, None)
  const NoOptions := Options(None, None, NoSection, NoSection, TransferSection(None, None, None))

  /** A resolved `show` or `hide` section of an item. */
  datatype Resolved = Resolved(transition: Option<Transition>, animations: Option<AnimationSet>)

  /** The resolved `transfer` section of an item: `items` is always an object. */
  datatype ResolvedTransfer = ResolvedTransfer(transition: Option<Transition>, items: TransferItems, zIndex: Option<real>)

  /** `item.options`. */
  datatype ItemOptions = ItemOptions(show: Resolved, hide: Resolved, transfer: ResolvedTransfer)

  /** One section of a call's options laid over an already resolved section:
      `(options.sec ? options.sec.f : undefined) || options.f || resolved.f`. */
  function MergeSection(r: Resolved, sec: Section, o: Options): (m: Resolved)
    ensures m.transition == FirstDefined([sec.transition, o.transition, r.transition])
    ensures m.animations == FirstDefined([sec.animations, o.animations, r.animations])
  {
    FirstOfThree(sec.transition, o.transition, r.transition);
    FirstOfThree(sec.animations, o.animations, r.animations);
    Resolved(Or(Or(sec.transition, o.transition), r.transition), Or(Or(sec.animations, o.animations), r.animations))
  }

  /** The item options `_createItem` builds: first from the controller's options, then,
      when the call passed options, with those laid over them. Each transition and
      animation set is the first defined of the call's section value, the call's
      generic value, the controller's section value and the controller's generic value;
      `transfer.items` never falls back to a generic value and defaults to no pairs;
      `transfer.zIndex` keeps an explicit call value, zero included. */
  function CreateOptions(ctrl: Options, call: Option<Options>): (r: ItemOptions)
    ensures var c := call.GetOr(NoOptions);
      && r.show.transition == FirstDefined([c.show.transition, c.transition, ctrl.show.transition, ctrl.transition])
      && r.show.animations == FirstDefined([c.show.animations, c.animations, ctrl.show.animations, ctrl.animations])
      && r.hide.transition == FirstDefined([c.hide.transition, c.transition, ctrl.hide.transition, ctrl.transition])
      && r.hide.animations == FirstDefined([c.hide.animations, c.animations, ctrl.hide.animations, ctrl.animations])
      && r.transfer.transition == FirstDefined([c.transfer.transition, c.transition, ctrl.transfer.transition, ctrl.transition])
      && r.transfer.items == FirstDefined([c.transfer.items, ctrl.transfer.items]).GetOr([])
      && r.transfer.zIndex == (if c.transfer.zIndex.Some? then c.transfer.zIndex else ctrl.transfer.zIndex)
  {
    var c := call.GetOr(NoOptions);
    FirstOfFour(c.show.transition, c.transition, ctrl.show.transition, ctrl.transition);
    FirstOfFour(c.show.animations, c.animations, ctrl.show.animations, ctrl.animations);
    FirstOfFour(c.hide.transition, c.transition, ctrl.hide.transition, ctrl.transition);
    FirstOfFour(c.hide.animations, c.animations, ctrl.hide.animations, ctrl.animations);
    FirstOfFour(c.transfer.transition, c.transition, ctrl.transfer.transition, ctrl.transition);
    FirstOfTwo(c.transfer.items, ctrl.transfer.items);
    var base := ItemOptions(
      Resolved(Or(ctrl.show.transition, ctrl.transition), Or(ctrl.show.animations, ctrl.animations)),
      Resolved(Or(ctrl.hide.transition, ctrl.transition), Or(ctrl.hide.animations, ctrl.animations)),
      ResolvedTransfer(Or(ctrl.transfer.transition, ctrl.transition), ctrl.transfer.items.GetOr([]), ctrl.transfer.zIndex));
    if call.None? then base
    else
      var o := call.value;
      ItemOptions(
        MergeSection(base.show, o.show, o),
        MergeSection(base.hide, o.hide, o),
        ResolvedTransfer(
          Or(Or(o.transfer.transition, o.transition), base.transfer.transition),
          o.transfer.items.GetOr(base.transfer.items),
          if o.transfer.zIndex.Some? then o.transfer.zIndex else base.transfer.zIndex))
  }

  /** What `_hide` does to the options of the item it hides when given `call`: the hide
      section takes the call's hide value, else its generic value, else keeps its own;
      nothing else changes. */
  function HideOverride(opts: ItemOptions, call: Option<Options>): (r: ItemOptions)
    ensures r.show == opts.show && r.transfer == opts.transfer
    ensures var c := call.GetOr(NoOptions);
      && r.hide.transition == FirstDefined([c.hide.transition, c.transition, opts.hide.transition])
      && r.hide.animations == FirstDefined([c.hide.animations, c.animations, opts.hide.animations])
  {
    var c := call.GetOr(NoOptions);
    FirstOfThree(c.hide.transition, c.transition, opts.hide.transition);
    FirstOfThree(c.hide.animations, c.animations, opts.hide.animations);
    if call.None? then opts else opts.(hide := MergeSection(opts.hide, call.value.hide, call.value))
  }
}
