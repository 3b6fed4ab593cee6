/**
 * The popup side: the process-wide `Plugin::PluginPopup` registry, the geometry
 * handlers `requestSetAppletVisible` connects to it, and what a popup geometry
 * event then does to the applet widget.
 */
module PopupRegistry {
  import opened Wrappers
  import opened Handles

  /** `Plugin::PluginPopup` popup types; the loader only ever sets the embed type. */
  datatype PopupType = PopupTypeEmbed

  /** A `PluginPopup` wrapper's metadata; `popupType` is None until `setPopupType` runs. */
  datatype PopupWrapper = PopupWrapper(pluginId: string, itemKey: string, popupType: Option<PopupType>)

  /** A wrapper as `PluginPopup::get` creates it. */
  const BlankPopup: PopupWrapper := PopupWrapper("", "", None)

  /**
   * The popup registry and the geometry handlers connected to its wrappers: one
   * entry of `resizers` per connected `eventGeometry -> setFixedSize` lambda.
   */
  datatype PopupState = PopupState(popups: map<Handle, PopupWrapper>, resizers: seq<Handle>)

  /**
   * Every registered popup has a resize handler and none has two (in the modelled
   * code popups are only created by `requestSetAppletVisible`).
   */
  ghost predicate PopupInv(p: PopupState)
  {
    && NoDuplicates(p.resizers)
    && forall g :: g in p.resizers <==> g in p.popups
  }

  /**
   * The registry part of `requestSetAppletVisible` (lines 168-179) for the applet window `h`:
   * `hasCreated = contains(h)`, get-or-create the wrapper, connect the resize
   * handler only when the wrapper is new, then overwrite the wrapper's metadata.
   */
  function RegisterPopup(p: PopupState, h: Handle, pluginId: string, key: string): (r: PopupState)
    ensures h in r.popups && r.popups[h] == PopupWrapper(pluginId, key, Some(PopupTypeEmbed))
    ensures r.popups.Keys == p.popups.Keys + {h}
    ensures forall g :: g in p.popups && g != h ==> r.popups[g] == p.popups[g]
    ensures h in p.popups ==> r.resizers == p.resizers
    ensures h !in p.popups ==> r.resizers == p.resizers + [h]
  {
    var hasCreated := h in p.popups;
    var popups := GetOrCreate(p.popups, h, BlankPopup);
    var resizers := if hasCreated then p.resizers else p.resizers + [h];
    var w := popups[h].(pluginId := pluginId, itemKey := key, popupType := Some(PopupTypeEmbed));
    PopupState(popups[h := w], resizers)
  }

  /** Registering keeps the invariant, and afterwards the popup has exactly one resize handler. */
  lemma RegisterPopupPreservesInv(p: PopupState, h: Handle, pluginId: string, key: string)
    requires PopupInv(p)
    ensures var r := RegisterPopup(p, h, pluginId, key);
            PopupInv(r) && Count(r.resizers, h) == 1 && forall g :: Count(r.resizers, g) <= 1
  {
    var r := RegisterPopup(p, h, pluginId, key);
    assert PopupInv(r);
    CountInNoDuplicates(r.resizers, h);
    forall g ensures Count(r.resizers, g) <= 1 {
      CountInNoDuplicates(r.resizers, g);
    }
  }

  /**
   * Repeating the request never connects a second handler; the metadata is the one
   * written by the latest call.
   */
  lemma RegisterPopupAgain(p: PopupState, h: Handle, id: string, key: string, id': string, key': string)
    ensures var once := RegisterPopup(p, h, id, key);
            var twice := RegisterPopup(once, h, id', key');
            && twice.resizers == once.resizers
            && twice.popups == once.popups[h := PopupWrapper(id', key', Some(PopupTypeEmbed))]
  {
  }

  /** The `setFixedSize` calls one `eventGeometry(size)` from popup `h` triggers: one per connected handler. */
  function PopupGeometryResizes(resizers: seq<Handle>, h: Handle, size: Size): (r: seq<Size>)
    ensures |r| == Count(resizers, h)
    ensures forall k :: 0 <= k < |r| ==> r[k] == size
  {
    if resizers == [] then []
    else (if resizers[0] == h then [size] else []) + PopupGeometryResizes(resizers[1..], h, size)
  }

  /** Once an applet is shown, its popup's geometry events resize it exactly once, to exactly the reported size. */
  lemma ShownAppletFollowsGeometry(p: PopupState, h: Handle, pluginId: string, key: string, size: Size)
    requires PopupInv(p)
    ensures PopupGeometryResizes(RegisterPopup(p, h, pluginId, key).resizers, h, size) == [size]
  {
    RegisterPopupPreservesInv(p, h, pluginId, key);
  }
}
