/**
 * `dock::WidgetPlugin`, the loader that hosts one widget plugin in the dock, as
 * classes over the two process-wide registries. Each state-changing method is
 * proved equal to the pure transition of `EmbedRegistry` or `PopupRegistry`,
 * whose properties are proved there.
 */
module WidgetPlugins {
  import opened Wrappers
  import opened Handles
  import opened PluginFlags
  import opened EmbedRegistry
  import opened PopupRegistry

  /**
   * The static tables of `Plugin::EmbedPlugin` and `Plugin::PluginPopup`, the
   * connections made to popup wrappers, and the windowing system's supply of new
   * native window handles.
   */
  class Registries {
    var embeds: map<Handle, EmbedWrapper>
    var nextWindow: Handle
    var popups: map<Handle, PopupWrapper>
    var popupResizers: seq<Handle>

    constructor ()
      ensures embeds == map[] && nextWindow == 0 && popups == map[] && popupResizers == []
    {
      embeds, nextWindow, popups, popupResizers := map[], 0, map[], [];
    }

    function PopupView(): PopupState
      reads this
    {
      PopupState(popups, popupResizers)
    }

    /** A new native window (a `PluginItem`'s `windowHandle()` once `init()` has realised it). */
    method NewWindow() returns (h: Handle)
      modifies this`nextWindow
      ensures h == old(nextWindow) && nextWindow == h + 1
    {
      h := nextWindow;
      nextWindow := nextWindow + 1;
    }

    /** `EmbedPlugin::get(handle)`. */
    method GetEmbed(h: Handle)
      modifies this`embeds
      ensures embeds == GetOrCreate(old(embeds), h, BlankWrapper)
    {
      if h !in embeds {
        embeds := embeds[h := BlankWrapper];
      }
    }

    /** `setPluginFlags`, `setPluginId`, `setItemKey`, `setPluginType` and `setPluginSizePolicy` on one wrapper. */
    method SetEmbedMetadata(h: Handle, pluginId: string, key: string, slot: Slot, flag: bv32, policy: SizePolicy)
      requires h in embeds
      modifies this`embeds
      ensures embeds == old(embeds)[h := old(embeds)[h].(flags := flag, pluginId := pluginId, itemKey := key,
                                                         slot := Some(slot), sizePolicy := policy)]
    {
      var w := embeds[h];
      w := w.(flags := flag);
      w := w.(pluginId := pluginId);
      w := w.(itemKey := key);
      w := w.(slot := Some(slot));
      w := w.(sizePolicy := policy);
      embeds := embeds[h := w];
    }

    /** `PluginPopup::get(handle)`. */
    method GetPopup(h: Handle)
      modifies this`popups
      ensures popups == GetOrCreate(old(popups), h, BlankPopup)
    {
      if h !in popups {
        popups := popups[h := BlankPopup];
      }
    }

    /** `connect(pluginPopup, &PluginPopup::eventGeometry, appletWidget, ...)`, without a uniqueness check. */
    method ConnectPopupResize(h: Handle)
      modifies this`popupResizers
      ensures popupResizers == old(popupResizers) + [h]
    {
      popupResizers := popupResizers + [h];
    }

    /** `setPluginId`, `setItemKey` and `setPopupType(PopupTypeEmbed)` on one popup wrapper. */
    method SetPopupMetadata(h: Handle, pluginId: string, key: string)
      requires h in popups
      modifies this`popups
      ensures popups == old(popups)[h := old(popups)[h].(pluginId := pluginId, itemKey := key, popupType := Some(PopupTypeEmbed))]
    {
      popups := popups[h := popups[h].(pluginId := pluginId, itemKey := key, popupType := Some(PopupTypeEmbed))];
    }
  }

  /** The facets of an item that `itemUpdate` and `itemRemoved` look up. */
  datatype Facet =
    | LoaderItem   // m_pluginItem
    | ItemWidget   // itemWidget(itemKey)
    | QuickPanel   // itemWidget(QUICK_ITEM_KEY)
    | PopupApplet  // itemPopupApplet(itemKey)
    | TipsWidget   // itemTipsWidget(itemKey)

  /** Which facets are currently non-null. */
  datatype Facets = Facets(loaderItem: bool, itemWidget: bool, quickPanel: bool, popupApplet: bool, tipsWidget: bool)

  predicate Present(f: Facets, x: Facet)
  {
    match x
    case LoaderItem => f.loaderItem
    case ItemWidget => f.itemWidget
    case QuickPanel => f.quickPanel
    case PopupApplet => f.popupApplet
    case TipsWidget => f.tipsWidget
  }

  /** The order in which the source visits the facets. */
  function FacetRank(x: Facet): nat
  {
    match x
    case LoaderItem => 0
    case ItemWidget => 1
    case QuickPanel => 2
    case PopupApplet => 3
    case TipsWidget => 4
  }

  /** One `requestMessage(msg)` emitted by the wrapper of window `target`. */
  datatype RequestMessage = RequestMessage(target: Handle, msg: string)

  /** The acknowledgement `{"code": 0}`. */
  datatype Ack = Ack(code: int)

  /**
   * `WidgetPlugin::messageCallback`: broadcast `msg` as one `requestMessage` from
   * every wrapper in `EmbedPlugin::all()` and acknowledge with code 0.
   */
  method MessageCallback(reg: Registries, msg: string) returns (emitted: seq<RequestMessage>, ack: Ack)
    ensures ack == Ack(0)
    ensures |emitted| == |reg.embeds|
    ensures forall k :: 0 <= k < |emitted| ==> emitted[k].msg == msg && emitted[k].target in reg.embeds
    ensures forall h :: h in reg.embeds ==> exists k :: 0 <= k < |emitted| && emitted[k].target == h
    ensures forall i, j :: 0 <= i < j < |emitted| ==> emitted[i].target != emitted[j].target
  {
    emitted := [];
    var remaining := reg.embeds.Keys;
    while remaining != {}
      invariant remaining <= reg.embeds.Keys
      invariant |emitted| + |remaining| == |reg.embeds|
      invariant forall k :: 0 <= k < |emitted| ==>
        emitted[k].msg == msg && emitted[k].target in reg.embeds && emitted[k].target !in remaining
      invariant forall h :: h in reg.embeds && h !in remaining ==>
        exists k :: 0 <= k < |emitted| && emitted[k].target == h
      invariant forall i, j :: 0 <= i < j < |emitted| ==> emitted[i].target != emitted[j].target
      decreases |remaining|
    {
      var h :| h in remaining;
      ghost var before := emitted;
      emitted := emitted + [RequestMessage(h, msg)];
      assert forall k :: 0 <= k < |before| ==> emitted[k] == before[k];
      assert emitted[|before|].target == h;
      remaining := remaining - {h};
    }
    ack := Ack(0);
  }

  /** `dock::WidgetPlugin` for one plugin over the shared registries. */
  class WidgetPlugin {
    const reg: Registries
    const layout: FlagLayout
    /** `m_pluginsItemInterface->pluginName()`. */
    const pluginName: string
    /** `m_pluginItems`. */
    var items: seq<PluginItem>
    /** The connections `initConnections` has made from embed wrappers to this loader. */
    var links: seq<Link>

    function State(): HostState
      reads this, reg
    {
      HostState(reg.embeds, items, links, reg.nextWindow)
    }

    ghost predicate Valid()
      reads this, reg
    {
      Inv(State()) && PopupInv(reg.PopupView())
    }

    constructor (reg: Registries, layout: FlagLayout, pluginName: string)
      requires Inv(HostState(reg.embeds, [], [], reg.nextWindow)) && PopupInv(reg.PopupView())
      ensures Valid()
      ensures this.reg == reg && this.layout == layout && this.pluginName == pluginName
      ensures items == [] && links == []
    {
      this.reg := reg;
      this.layout := layout;
      this.pluginName := pluginName;
      items := [];
      links := [];
    }

    /** `connect(..., Qt::UniqueConnection)` from the wrapper of window `l.source`. */
    method ConnectUnique(l: Link)
      modifies this`links
      ensures links == EmbedRegistry.ConnectUnique(old(links), l)
    {
      if l !in links {
        links := links + [l];
      }
    }

    /** `initConnections(plugin, item)` for the wrapper of window `h`. */
    method InitConnections(h: Handle)
      modifies this`links
      ensures links == EmbedRegistry.InitConnections(old(links), h)
    {
      links := links + [Link(h, ColorThemeChanged)];  // a lambda: UniqueConnection has no effect
      ConnectUnique(Link(h, DockPositionChanged));
      ConnectUnique(Link(h, EventMessage));
      links := links + [Link(h, EventGeometry)];
    }

    /** The body of one `itemAdded` branch, run when `contains(itemKey, slot)` is false. */
    method CreateItem(itemInter: ItemInterface, itemKey: string, flag: bv32, slot: Slot)
      requires Valid() && !Contains(reg.embeds, itemKey, slot)
      modifies this, reg
      ensures Valid()
      ensures State() == AddSlot(old(State()), itemInter, itemKey, flag, slot)
      ensures reg.PopupView() == old(reg.PopupView())
    {
      ghost var s, p := State(), reg.PopupView();
      var h := reg.NewWindow();
      var item := PluginItem(itemKey, slot, h, flag, None);
      reg.GetEmbed(h);
      InitConnections(h);
      reg.SetEmbedMetadata(h, itemInter.pluginName, itemKey, slot, flag, itemInter.sizePolicy);
      items := items + [item];
      assert reg.PopupView() == p;
      assert State() == HostState(s.embeds[h := NewWrapper(itemInter, itemKey, flag, slot)],
                                  s.items + [item], EmbedRegistry.InitConnections(s.links, h), h + 1);
      AddSlotWhenAbsent(s, itemInter, itemKey, flag, slot);
      AddSlotPreservesInv(s, itemInter, itemKey, flag, slot);
    }

    /** One branch of `itemAdded`: check `contains(itemKey, slot)` before creating anything. */
    method AddToSlot(itemInter: ItemInterface, itemKey: string, flag: bv32, slot: Slot)
      requires Valid()
      modifies this, reg
      ensures Valid()
      ensures State() == AddSlot(old(State()), itemInter, itemKey, flag, slot)
      ensures reg.PopupView() == old(reg.PopupView())
    {
      if !Contains(reg.embeds, itemKey, slot) {
        CreateItem(itemInter, itemKey, flag, slot);
      }
    }

    /** `itemAdded(itemInter, itemKey)`. */
    method ItemAdded(itemInter: ItemInterface, itemKey: string, src: FlagSource)
      requires Valid()
      modifies this, reg
      ensures Valid()
      ensures State() == EmbedRegistry.ItemAdded(old(State()), layout, itemInter, itemKey, ResolveFlags(layout, src))
      ensures reg.PopupView() == old(reg.PopupView())
    {
      ghost var s := State();
      var flag := ResolveFlags(layout, src);  // getPluginFlags()
      ghost var done: seq<Slot> := [];
      if Has(flag, layout.typeQuick) {
        AddToSlot(itemInter, itemKey, flag, Quick);
        AddSlotsSnoc(s, itemInter, itemKey, flag, done, Quick);
        done := done + [Quick];
        assert State() == AddSlots(s, itemInter, itemKey, flag, done);
      }
      if Has(flag, layout.typeQuick) || Has(flag, layout.typeSystem)
         || Has(flag, layout.typeTray) || Has(flag, layout.attributeNormal) {
        AddToSlot(itemInter, itemKey, flag, Tray);
        AddSlotsSnoc(s, itemInter, itemKey, flag, done, Tray);
        done := done + [Tray];
        assert State() == AddSlots(s, itemInter, itemKey, flag, done);
      }
      if Has(flag, layout.typeTool) {
        AddToSlot(itemInter, itemKey, flag, Fixed);
        AddSlotsSnoc(s, itemInter, itemKey, flag, done, Fixed);
        done := done + [Fixed];
        assert State() == AddSlots(s, itemInter, itemKey, flag, done);
      }
      assert done == SelectedSlots(layout, flag);
    }

    /**
     * `itemUpdate(itemInter, itemKey)`: repaint every facet that exists. It has no
     * frame, so it leaves both registries and `m_pluginItems` as they were.
     */
    method ItemUpdate(itemInter: ItemInterface, itemKey: string, present: Facets) returns (updated: seq<Facet>)
      ensures forall x :: x in updated <==> Present(present, x)
      ensures forall i, j :: 0 <= i < j < |updated| ==> FacetRank(updated[i]) < FacetRank(updated[j])
    {
      updated := [];
      if present.loaderItem { updated := updated + [LoaderItem]; }
      if present.itemWidget { updated := updated + [ItemWidget]; }
      if present.quickPanel { updated := updated + [QuickPanel]; }
      if present.popupApplet { updated := updated + [PopupApplet]; }
      if present.tipsWidget { updated := updated + [TipsWidget]; }
    }

    /**
     * `itemRemoved(itemInter, itemKey)`: hide the item widget, the quick panel, the
     * popup applet and the tips widget when they exist (never `m_pluginItem`). No
     * wrapper is evicted and no item is dropped.
     */
    method ItemRemoved(itemInter: ItemInterface, itemKey: string, present: Facets) returns (hidden: seq<Facet>)
      ensures forall x :: x in hidden <==> Present(present, x) && x != LoaderItem
      ensures forall i, j :: 0 <= i < j < |hidden| ==> FacetRank(hidden[i]) < FacetRank(hidden[j])
    {
      hidden := [];
      if present.itemWidget { hidden := hidden + [ItemWidget]; }
      if present.quickPanel { hidden := hidden + [QuickPanel]; }
      if present.popupApplet { hidden := hidden + [PopupApplet]; }
      if present.tipsWidget { hidden := hidden + [TipsWidget]; }
    }

    /**
     * `requestSetAppletVisible(itemInter, itemKey, visible)`. `applet` is the window of
     * `itemInter->itemPopupApplet(itemKey)`, None when that is null. `notified` tells
     * whether the `AppletContainer`/`QuickPanelEmbed` message went to the plugin,
     * `shown` whether the applet was shown; `visible` is not consulted.
     */
    method RequestSetAppletVisible(itemInter: ItemInterface, itemKey: string, visible: bool, applet: Option<Handle>)
      returns (notified: bool, shown: bool)
      requires Valid()
      modifies reg`popups, reg`popupResizers
      ensures Valid()
      ensures notified == (applet.Some? && itemInter.hasV2)
      ensures shown == applet.Some?
      ensures applet.None? ==> reg.PopupView() == old(reg.PopupView())
      ensures applet.Some? ==> reg.PopupView() == RegisterPopup(old(reg.PopupView()), applet.value, pluginName, itemKey)
      ensures State() == old(State())
    {
      if applet.None? {
        return false, false;
      }
      var h := applet.value;
      notified := itemInter.hasV2;
      var hasCreated := h in reg.popups;
      reg.GetPopup(h);
      if !hasCreated {
        reg.ConnectPopupResize(h);
      }
      reg.SetPopupMetadata(h, pluginName, itemKey);
      shown := true;
      RegisterPopupPreservesInv(old(reg.PopupView()), h, pluginName, itemKey);
    }
  }

  /** From an empty dock, a `Type_Quick`-only plugin gets a Quick item then a Tray item, and a second add changes nothing. */
  lemma QuickPluginFromEmpty(layout: FlagLayout, iface: ItemInterface, key: string, s0: HostState)
    requires layout.typeQuick != 0 && layout.typeQuick & layout.typeTool == 0
    requires s0.embeds == map[] && s0.items == [] && s0.links == []
    ensures var t := EmbedRegistry.ItemAdded(s0, layout, iface, key, layout.typeQuick);
            && |t.items| == 2 && t.items[0].slot == Quick && t.items[1].slot == Tray
            && EmbedRegistry.ItemAdded(t, layout, iface, key, layout.typeQuick) == t
  {
    QuickAloneFansOut(layout);
    MissingFromEmpty(key, [Quick, Tray]);
    assert Inv(s0);
    ItemAddedGrowth(s0, layout, iface, key, layout.typeQuick);
    ItemAddedIdempotent(s0, layout, iface, iface, key, layout.typeQuick);
  }

  /**
   * A plugin whose V2 `flags()` is exactly `Type_Quick`, added twice to an empty
   * dock, and then asked for an applet it does not have: the first add creates a
   * Quick item and a Tray item, the second creates nothing, and the null applet
   * registers no popup.
   */
  method QuickPluginScenario(layout: FlagLayout, iface: ItemInterface, key: string)
    returns (slotsAfterFirst: seq<Slot>, countAfterSecond: nat, popupCount: nat)
    requires layout.typeQuick != 0 && layout.typeQuick & layout.typeTool == 0
    ensures slotsAfterFirst == [Quick, Tray]
    ensures countAfterSecond == 2
    ensures popupCount == 0
  {
    var reg := new Registries();
    var plugin := new WidgetPlugin(reg, layout, iface.pluginName);
    var src := FlagSource(Some(layout.typeQuick), NoInstance);
    QuickPluginFromEmpty(layout, iface, key, plugin.State());
    plugin.ItemAdded(iface, key, src);
    slotsAfterFirst := [plugin.items[0].slot, plugin.items[1].slot];
    plugin.ItemAdded(iface, key, src);
    countAfterSecond := |plugin.items|;
    var notified, shown := plugin.RequestSetAppletVisible(iface, key, true, None);
    popupCount := |reg.popups|;
  }
}
