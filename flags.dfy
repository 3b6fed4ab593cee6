/**
 * Plugin flags: the bitmask a plugin declares, the three presentation slots it
 * selects (`WidgetPlugin::itemAdded`) and the fallback that obtains the mask
 * (`WidgetPlugin::getPluginFlags`).
 */
module PluginFlags {
  import opened Wrappers

  /**
   * The numeric values of the `Dock::PluginFlag` constants that the loader tests.
   * They are defined outside the modelled file, so they are parameters here.
   */
  datatype FlagLayout = FlagLayout(
    typeQuick: bv32,
    typeSystem: bv32,
    typeTray: bv32,
    typeTool: bv32,
    attributeNormal: bv32,
    typeUnadapted: bv32)

  /** The C++ test `flag & bit`, read as a condition. */
  predicate Has(mask: bv32, bit: bv32)
  {
    mask & bit != 0
  }

  /** `Plugin::EmbedPlugin::PluginType`: the slot an embedded item occupies. */
  datatype Slot = Quick | Tray | Fixed

  /** Position of a slot in the order `itemAdded` visits the branches. */
  function Rank(s: Slot): nat
  {
    match s
    case Quick => 0
    case Tray => 1
    case Fixed => 2
  }

  /**
   * The slots `itemAdded` tries to fill for mask `m`, in the order of its three
   * branches: Quick, then Tray, then Fixed.
   */
  function SelectedSlots(l: FlagLayout, m: bv32): (r: seq<Slot>)
    ensures Quick in r <==> Has(m, l.typeQuick)
    ensures Tray in r <==>
      Has(m, l.typeQuick) || Has(m, l.typeSystem) || Has(m, l.typeTray) || Has(m, l.attributeNormal)
    ensures Fixed in r <==> Has(m, l.typeTool)
    ensures forall i, j :: 0 <= i < j < |r| ==> Rank(r[i]) < Rank(r[j])
  {
    (if Has(m, l.typeQuick) then [Quick] else [])
    + (if Has(m, l.typeQuick) || Has(m, l.typeSystem) || Has(m, l.typeTray) || Has(m, l.attributeNormal)
       then [Tray] else [])
    + (if Has(m, l.typeTool) then [Fixed] else [])
  }

  /** `Type_Quick` alone fans out to a Quick item and a Tray item (when it shares no bit with `Type_Tool`). */
  lemma QuickAloneFansOut(l: FlagLayout)
    requires l.typeQuick != 0 && l.typeQuick & l.typeTool == 0
    ensures SelectedSlots(l, l.typeQuick) == [Quick, Tray]
  {
  }

  /** A mask with none of the slot bits selects no slot, so `itemAdded` creates nothing. */
  lemma NoSlotBitsSelectNothing(l: FlagLayout, m: bv32)
    requires !Has(m, l.typeQuick) && !Has(m, l.typeSystem) && !Has(m, l.typeTray)
    requires !Has(m, l.attributeNormal) && !Has(m, l.typeTool)
    ensures SelectedSlots(l, m) == []
  {
  }

  /** What `m_pluginLoader->instance()` and `property("pluginFlags").toInt(&ok)` yield. */
  datatype LoaderProbe =
    | NoInstance                          // instance() returned nullptr
    | Instance(pluginFlags: Option<bv32>) // None when toInt reports !ok

  /**
   * The plugin's answers at the moment of the query: `v2Flags` is `flags()` when the
   * plugin implements `PluginsItemInterfaceV2` and None when the downcast fails.
   */
  datatype FlagSource = FlagSource(v2Flags: Option<bv32>, loader: LoaderProbe)

  /** `UNADAPTED_PLUGIN_FLAGS`: `Type_Unadapted | Attribute_Normal`. */
  function UnadaptedFlags(l: FlagLayout): bv32
  {
    l.typeUnadapted | l.attributeNormal
  }

  /** True when neither the V2 interface nor the loader property yields a mask. */
  predicate FallsBack(src: FlagSource)
  {
    src.v2Flags.None? && (src.loader.NoInstance? || src.loader.pluginFlags.None?)
  }

  /** `getPluginFlags`: V2 `flags()` first, then the parsed property, else the unadapted default. */
  function ResolveFlags(l: FlagLayout, src: FlagSource): (r: bv32)
    ensures src.v2Flags.Some? ==> r == src.v2Flags.value
    ensures FallsBack(src) ==> r == UnadaptedFlags(l)
    ensures src.v2Flags.None? && src.loader.Instance? && src.loader.pluginFlags.Some?
            ==> r == src.loader.pluginFlags.value
  {
    match src.v2Flags
    case Some(f) => f
    case None =>
      match src.loader
      case NoInstance => UnadaptedFlags(l)
      case Instance(parsed) =>
        match parsed
        case None => UnadaptedFlags(l)
        case Some(f) => f
  }

  /**
   * With the default mask the Tray slot is always selected (through `Attribute_Normal`);
   * Quick and Fixed are selected only if the default mask overlaps `Type_Quick` or `Type_Tool`.
   */
  lemma FallbackSelectsTray(l: FlagLayout, src: FlagSource)
    requires FallsBack(src) && l.attributeNormal != 0
    ensures Tray in SelectedSlots(l, ResolveFlags(l, src))
    ensures Quick in SelectedSlots(l, ResolveFlags(l, src)) <==> Has(UnadaptedFlags(l), l.typeQuick)
    ensures Fixed in SelectedSlots(l, ResolveFlags(l, src)) <==> Has(UnadaptedFlags(l), l.typeTool)
  {
    assert UnadaptedFlags(l) & l.attributeNormal == l.attributeNormal;
  }
}
