/**
 * The embed side of the dock's widget-plugin loader as a pure state machine: the
 * process-wide `Plugin::EmbedPlugin` registry (native window handle -> wrapper),
 * the loader's list of created items (`m_pluginItems`) and the signal connections
 * it installs, with `itemAdded` and the Quick-only geometry handler as functions
 * from one state to the next.
 */
module EmbedRegistry {
  import opened Wrappers
  import opened Handles
  import opened PluginFlags

  /** `Dock::ItemSizePolicy`, opaque to the loader. */
  type SizePolicy = int

  /** The metadata an `EmbedPlugin` wrapper carries; `slot` is None until `setPluginType` runs. */
  datatype EmbedWrapper = EmbedWrapper(
    pluginId: string,
    itemKey: string,
    slot: Option<Slot>,
    flags: bv32,
    sizePolicy: SizePolicy)

  /** A wrapper as `EmbedPlugin::get` creates it, before any setter has run. */
  const BlankWrapper: EmbedWrapper := EmbedWrapper("", "", None, 0, 0)

  /** What the loader asks of the `itemInter` passed to it. */
  datatype ItemInterface = ItemInterface(pluginName: string, sizePolicy: SizePolicy, hasV2: bool)

  /** A `PluginItem` (a `QuickPluginItem` for the Quick slot) and the native window it owns. */
  datatype PluginItem = PluginItem(
    itemKey: string,
    slot: Slot,
    window: Handle,
    flags: bv32,
    widgetSize: Option<Size>)  // last size given to updateItemWidgetSize

  /** The wrapper signals `initConnections` connects to. */
  datatype Signal = ColorThemeChanged | DockPositionChanged | EventMessage | EventGeometry

  /** One connection from the wrapper of window `source`. */
  datatype Link = Link(source: Handle, signal: Signal)

  /**
   * The embed registry, the items of one loader, its connections, and the next
   * native window handle the windowing system will hand out.
   */
  datatype HostState = HostState(
    embeds: map<Handle, EmbedWrapper>,
    items: seq<PluginItem>,
    links: seq<Link>,
    nextWindow: Handle)

  /** `EmbedPlugin::contains(itemKey, type)`: some wrapper has this item key and this slot. */
  predicate Contains(embeds: map<Handle, EmbedWrapper>, key: string, slot: Slot)
  {
    exists h :: h in embeds && embeds[h].itemKey == key && embeds[h].slot == Some(slot)
  }

  /** No two wrappers share an item key and a slot. */
  predicate OneEntryPerSlot(embeds: map<Handle, EmbedWrapper>)
  {
    forall h1, h2 ::
      h1 in embeds && h2 in embeds && embeds[h1].slot.Some?
      && embeds[h1].itemKey == embeds[h2].itemKey && embeds[h1].slot == embeds[h2].slot
      ==> h1 == h2
  }

  /** No two items share an item key and a slot. */
  predicate OneItemPerSlot(items: seq<PluginItem>)
  {
    forall i, j ::
      0 <= i < |items| && 0 <= j < |items|
      && items[i].itemKey == items[j].itemKey && items[i].slot == items[j].slot
      ==> i == j
  }

  /** Every handle already in use is below the next one to be handed out. */
  predicate FreshWindows(s: HostState)
  {
    && (forall h :: h in s.embeds ==> h < s.nextWindow)
    && (forall k :: 0 <= k < |s.links| ==> s.links[k].source < s.nextWindow)
  }

  /** Every item's window has a wrapper carrying the item's key and slot. */
  predicate ItemsAgree(embeds: map<Handle, EmbedWrapper>, items: seq<PluginItem>)
  {
    forall i :: 0 <= i < |items| ==>
      && items[i].window in embeds
      && embeds[items[i].window].itemKey == items[i].itemKey
      && embeds[items[i].window].slot == Some(items[i].slot)
  }

  /** No two items own the same native window. */
  predicate DistinctWindows(items: seq<PluginItem>)
  {
    forall i, j :: 0 <= i < j < |items| ==> items[i].window != items[j].window
  }

  /** The invariant every `itemAdded` keeps. */
  predicate Inv(s: HostState)
  {
    && FreshWindows(s)
    && OneEntryPerSlot(s.embeds)
    && ItemsAgree(s.embeds, s.items)
    && DistinctWindows(s.items)
    && NoDuplicates(s.links)
  }

  /** At most one item per (item key, slot) follows from the registry's own uniqueness. */
  lemma InvGivesOneItemPerSlot(s: HostState)
    requires Inv(s)
    ensures OneItemPerSlot(s.items)
  {
    forall i, j |
      0 <= i < |s.items| && 0 <= j < |s.items|
      && s.items[i].itemKey == s.items[j].itemKey && s.items[i].slot == s.items[j].slot
      ensures i == j
    {
      var hi, hj := s.items[i].window, s.items[j].window;
      assert s.embeds[hi].slot == s.embeds[hj].slot;
      assert hi == hj;
    }
  }

  /** `connect(..., Qt::UniqueConnection)`: a connection already present is not made again. */
  function ConnectUnique(links: seq<Link>, l: Link): (r: seq<Link>)
    ensures l in r
    ensures l in links ==> r == links
    ensures l !in links ==> r == links + [l]
  {
    if l in links then links else links + [l]
  }

  /**
   * `initConnections(plugin, item)`: the theme, position and message connections,
   * then the geometry lambda. The theme handler is a lambda, and Qt ignores
   * `Qt::UniqueConnection` for lambdas, so that one is appended like the geometry
   * lambda; only the two member-function connections are made unique.
   */
  function InitConnections(links: seq<Link>, h: Handle): (r: seq<Link>)
    ensures (forall k :: 0 <= k < |links| ==> links[k].source != h) ==>
      r == links + [Link(h, ColorThemeChanged), Link(h, DockPositionChanged), Link(h, EventMessage), Link(h, EventGeometry)]
  {
    ConnectUnique(
      ConnectUnique(links + [Link(h, ColorThemeChanged)], Link(h, DockPositionChanged)),
      Link(h, EventMessage))
    + [Link(h, EventGeometry)]
  }

  /**
   * Whatever connections the window already has, `initConnections` only appends:
   * the theme lambda first, the geometry lambda last, the position and message
   * connections present afterwards, and nothing from any other window.
   */
  lemma InitConnectionsExtends(links: seq<Link>, h: Handle)
    ensures var r := InitConnections(links, h);
            && |links| + 2 <= |r| <= |links| + 4 && r[..|links|] == links
            && r[|links|] == Link(h, ColorThemeChanged) && r[|r| - 1] == Link(h, EventGeometry)
            && Link(h, DockPositionChanged) in r && Link(h, EventMessage) in r
            && forall k :: |links| <= k < |r| ==> r[k].source == h
  {
    var r0 := links + [Link(h, ColorThemeChanged)];
    var r1 := ConnectUnique(r0, Link(h, DockPositionChanged));
    var r2 := ConnectUnique(r1, Link(h, EventMessage));
    assert r1[..|r0|] == r0 && r2[..|r1|] == r1;
  }

  /** The wrapper metadata `itemAdded` writes for a new item in `slot`. */
  function NewWrapper(iface: ItemInterface, key: string, flag: bv32, slot: Slot): EmbedWrapper
  {
    EmbedWrapper(iface.pluginName, key, Some(slot), flag, iface.sizePolicy)
  }

  /**
   * One branch of `itemAdded`: when `contains(key, slot)` is false, create an item
   * with its own new window, get or create that window's wrapper, connect it, fill
   * in its metadata and append the item; otherwise do nothing.
   */
  function AddSlot(s: HostState, iface: ItemInterface, key: string, flag: bv32, slot: Slot): HostState
  {
    if Contains(s.embeds, key, slot) then s
    else
      var h := s.nextWindow;
      var created := GetOrCreate(s.embeds, h, BlankWrapper);
      var links := InitConnections(s.links, h);
      var w := created[h].(flags := flag, pluginId := iface.pluginName, itemKey := key,
                           slot := Some(slot), sizePolicy := iface.sizePolicy);
      HostState(created[h := w], s.items + [PluginItem(key, slot, h, flag, None)], links, h + 1)
  }

  /** The branches for `slots`, taken in order. */
  function AddSlots(s: HostState, iface: ItemInterface, key: string, flag: bv32, slots: seq<Slot>): HostState
    decreases |slots|
  {
    if slots == [] then s
    else AddSlot(AddSlots(s, iface, key, flag, slots[..|slots| - 1]), iface, key, flag, slots[|slots| - 1])
  }

  /** A branch whose pair is not yet contained adds one wrapper, one item and the item's connections on the next window. */
  lemma AddSlotWhenAbsent(s: HostState, iface: ItemInterface, key: string, flag: bv32, slot: Slot)
    requires s.nextWindow !in s.embeds && !Contains(s.embeds, key, slot)
    ensures AddSlot(s, iface, key, flag, slot)
            == HostState(s.embeds[s.nextWindow := NewWrapper(iface, key, flag, slot)],
                         s.items + [PluginItem(key, slot, s.nextWindow, flag, None)],
                         InitConnections(s.links, s.nextWindow), s.nextWindow + 1)
  {
  }

  lemma AddSlotsSnoc(s: HostState, iface: ItemInterface, key: string, flag: bv32, slots: seq<Slot>, slot: Slot)
    ensures AddSlots(s, iface, key, flag, slots + [slot]) == AddSlot(AddSlots(s, iface, key, flag, slots), iface, key, flag, slot)
  {
    assert (slots + [slot])[..|slots|] == slots;
  }

  /** `itemAdded(itemInter, key)` once `getPluginFlags` has produced `flag`. */
  function ItemAdded(s: HostState, l: FlagLayout, iface: ItemInterface, key: string, flag: bv32): HostState
  {
    AddSlots(s, iface, key, flag, SelectedSlots(l, flag))
  }

  /** The slots of `slots` that `embeds` does not yet hold for `key`, in order. */
  function Missing(embeds: map<Handle, EmbedWrapper>, key: string, slots: seq<Slot>): seq<Slot>
    decreases |slots|
  {
    if slots == [] then []
    else
      Missing(embeds, key, slots[..|slots| - 1])
      + (if Contains(embeds, key, slots[|slots| - 1]) then [] else [slots[|slots| - 1]])
  }

  // ---------------------------------------------------------------------------
  // One branch

  lemma AddSlotContains(s: HostState, iface: ItemInterface, key: string, flag: bv32, slot: Slot, k: string, y: Slot)
    requires FreshWindows(s)
    ensures Contains(AddSlot(s, iface, key, flag, slot).embeds, k, y) <==> Contains(s.embeds, k, y) || (k == key && y == slot)
  {
    var t := AddSlot(s, iface, key, flag, slot);
    if !Contains(s.embeds, key, slot) {
      var h := s.nextWindow;
      assert h !in s.embeds;
      AddSlotWhenAbsent(s, iface, key, flag, slot);
      assert t.embeds == s.embeds[h := NewWrapper(iface, key, flag, slot)];
      if Contains(s.embeds, k, y) {
        var g :| g in s.embeds && s.embeds[g].itemKey == k && s.embeds[g].slot == Some(y);
        assert g in t.embeds && t.embeds[g] == s.embeds[g];
      }
      if k == key && y == slot {
        assert h in t.embeds && t.embeds[h].itemKey == k && t.embeds[h].slot == Some(y);
      }
      if Contains(t.embeds, k, y) {
        var g :| g in t.embeds && t.embeds[g].itemKey == k && t.embeds[g].slot == Some(y);
        if g != h {
          assert g in s.embeds && s.embeds[g] == t.embeds[g];
        }
      }
    }
  }

  /** Adding a wrapper for a pair no wrapper holds keeps one wrapper per (item key, slot). */
  lemma UpdateKeepsOneEntryPerSlot(embeds: map<Handle, EmbedWrapper>, h: Handle, w: EmbedWrapper)
    requires OneEntryPerSlot(embeds) && h !in embeds && w.slot.Some?
    requires !Contains(embeds, w.itemKey, w.slot.value)
    ensures OneEntryPerSlot(embeds[h := w])
  {
    assert forall g :: g in embeds ==> !(embeds[g].itemKey == w.itemKey && embeds[g].slot == w.slot);
  }

  /** Appending four links from a window no link comes from keeps the links free of duplicates. */
  lemma FreshLinksNoDuplicates(links: seq<Link>, h: Handle)
    requires NoDuplicates(links) && forall k :: 0 <= k < |links| ==> links[k].source < h
    ensures NoDuplicates(InitConnections(links, h))
  {
    var r := InitConnections(links, h);
    assert forall k :: 0 <= k < |links| ==> links[k].source != h;
    forall i, j | 0 <= i < j < |r| ensures r[i] != r[j] {
      if j >= |links| && i < |links| {
        assert r[i].source < h == r[j].source;
      }
    }
  }

  /** An item on a window no wrapper had, appended with a wrapper that agrees with it, keeps every item in agreement. */
  lemma AppendKeepsItemsAgree(embeds: map<Handle, EmbedWrapper>, items: seq<PluginItem>, w: EmbedWrapper, item: PluginItem)
    requires ItemsAgree(embeds, items) && item.window !in embeds
    requires w.itemKey == item.itemKey && w.slot == Some(item.slot)
    ensures ItemsAgree(embeds[item.window := w], items + [item])
  {
    var embeds', items' := embeds[item.window := w], items + [item];
    forall i | 0 <= i < |items'|
      ensures items'[i].window in embeds'
      ensures embeds'[items'[i].window].itemKey == items'[i].itemKey
      ensures embeds'[items'[i].window].slot == Some(items'[i].slot)
    {
      if i < |items| {
        assert items'[i] == items[i] && items[i].window != item.window;
      }
    }
  }

  /** An item on a window no wrapper had keeps the items' windows distinct. */
  lemma AppendKeepsDistinctWindows(embeds: map<Handle, EmbedWrapper>, items: seq<PluginItem>, item: PluginItem)
    requires ItemsAgree(embeds, items) && DistinctWindows(items) && item.window !in embeds
    ensures DistinctWindows(items + [item])
  {
    var items' := items + [item];
    forall i, j | 0 <= i < j < |items'| ensures items'[i].window != items'[j].window {
      assert items'[i] == items[i] && items[i].window in embeds;
      if j < |items| {
        assert items'[j] == items[j];
      }
    }
  }

  lemma AddSlotPreservesInv(s: HostState, iface: ItemInterface, key: string, flag: bv32, slot: Slot)
    requires Inv(s)
    ensures Inv(AddSlot(s, iface, key, flag, slot))
  {
    if !Contains(s.embeds, key, slot) {
      var h := s.nextWindow;
      var w := NewWrapper(iface, key, flag, slot);
      var item := PluginItem(key, slot, h, flag, None);
      var t := HostState(s.embeds[h := w], s.items + [item], InitConnections(s.links, h), h + 1);
      assert h !in s.embeds;
      AddSlotWhenAbsent(s, iface, key, flag, slot);
      UpdateKeepsOneEntryPerSlot(s.embeds, h, w);
      FreshLinksNoDuplicates(s.links, h);
      AppendKeepsItemsAgree(s.embeds, s.items, w, item);
      AppendKeepsDistinctWindows(s.embeds, s.items, item);
      assert FreshWindows(t) by {
        InitConnectionsExtends(s.links, h);
        assert forall k :: 0 <= k < |t.links| ==> t.links[k].source <= h;
      }
    }
  }

  // ---------------------------------------------------------------------------
  // Several branches

  lemma {:induction false} AddSlotsFacts(s: HostState, iface: ItemInterface, key: string, flag: bv32, slots: seq<Slot>)
    requires Inv(s)
    ensures Inv(AddSlots(s, iface, key, flag, slots))
    ensures s.nextWindow <= AddSlots(s, iface, key, flag, slots).nextWindow
    ensures forall h :: h in s.embeds ==>
              h in AddSlots(s, iface, key, flag, slots).embeds && AddSlots(s, iface, key, flag, slots).embeds[h] == s.embeds[h]
    decreases |slots|
  {
    if slots != [] {
      var init := slots[..|slots| - 1];
      var t' := AddSlots(s, iface, key, flag, init);
      AddSlotsFacts(s, iface, key, flag, init);
      AddSlotPreservesInv(t', iface, key, flag, slots[|slots| - 1]);
    }
  }

  /** After the branches for `slots`, `contains` holds for exactly the old pairs and `key` in each of `slots`. */
  lemma {:induction false} AddSlotsContains(s: HostState, iface: ItemInterface, key: string, flag: bv32, slots: seq<Slot>, k: string, y: Slot)
    requires Inv(s)
    ensures Contains(AddSlots(s, iface, key, flag, slots).embeds, k, y) <==> Contains(s.embeds, k, y) || (k == key && y in slots)
    decreases |slots|
  {
    if slots != [] {
      var init := slots[..|slots| - 1];
      var last := slots[|slots| - 1];
      var t' := AddSlots(s, iface, key, flag, init);
      AddSlotsContains(s, iface, key, flag, init, k, y);
      AddSlotsFacts(s, iface, key, flag, init);
      AddSlotContains(t', iface, key, flag, last, k, y);
      assert slots == init + [last];
      assert y in slots <==> y in init || y == last;
    }
  }

  /** When every one of `slots` is already held for `key`, the branches change nothing. */
  lemma {:induction false} AddSlotsWhenPresent(s: HostState, iface: ItemInterface, key: string, flag: bv32, slots: seq<Slot>)
    requires forall y :: y in slots ==> Contains(s.embeds, key, y)
    ensures AddSlots(s, iface, key, flag, slots) == s
    decreases |slots|
  {
    if slots != [] {
      var init := slots[..|slots| - 1];
      assert forall y :: y in init ==> y in slots;
      AddSlotsWhenPresent(s, iface, key, flag, init);
    }
  }

  /** `t` is `s` with one new item and one new wrapper per slot of `miss`, on consecutive new windows. */
  predicate Appended(s: HostState, t: HostState, iface: ItemInterface, key: string, flag: bv32, miss: seq<Slot>)
  {
    && |t.items| == |s.items| + |miss|
    && t.items[..|s.items|] == s.items
    && t.nextWindow == s.nextWindow + |miss|
    && forall i :: |s.items| <= i < |t.items| ==>
         && t.items[i] == PluginItem(key, miss[i - |s.items|], s.nextWindow + (i - |s.items|), flag, None)
         && t.items[i].window in t.embeds
         && t.embeds[t.items[i].window] == NewWrapper(iface, key, flag, miss[i - |s.items|])
  }

  lemma AppendedStep(s: HostState, t': HostState, iface: ItemInterface, key: string, flag: bv32, miss: seq<Slot>, slot: Slot)
    requires Appended(s, t', iface, key, flag, miss)
    requires FreshWindows(t') && !Contains(t'.embeds, key, slot)
    ensures Appended(s, AddSlot(t', iface, key, flag, slot), iface, key, flag, miss + [slot])
  {
    var t := AddSlot(t', iface, key, flag, slot);
    var h := t'.nextWindow;
    assert h !in t'.embeds;
    assert t.embeds == t'.embeds[h := NewWrapper(iface, key, flag, slot)];
    assert t.items == t'.items + [PluginItem(key, slot, h, flag, None)];
    var miss2 := miss + [slot];
    forall i | |s.items| <= i < |t.items|
      ensures t.items[i] == PluginItem(key, miss2[i - |s.items|], s.nextWindow + (i - |s.items|), flag, None)
      ensures t.items[i].window in t.embeds
      ensures t.embeds[t.items[i].window] == NewWrapper(iface, key, flag, miss2[i - |s.items|])
    {
      if i < |t'.items| {
        assert t.items[i] == t'.items[i];
        assert t'.items[i].window < h;
      }
    }
    assert t.items[..|s.items|] == t'.items[..|s.items|];
  }

  /** The items and wrappers the branches create: one per missing slot, with fresh consecutive windows. */
  lemma {:induction false} AddSlotsGrowth(s: HostState, iface: ItemInterface, key: string, flag: bv32, slots: seq<Slot>)
    requires Inv(s)
    requires NoDuplicates(slots)
    ensures Appended(s, AddSlots(s, iface, key, flag, slots), iface, key, flag, Missing(s.embeds, key, slots))
    decreases |slots|
  {
    if slots == [] {
      assert s.items[..|s.items|] == s.items;
    } else {
      var init := slots[..|slots| - 1];
      var last := slots[|slots| - 1];
      assert NoDuplicates(init);
      assert last !in init;
      var t' := AddSlots(s, iface, key, flag, init);
      AddSlotsGrowth(s, iface, key, flag, init);
      AddSlotsFacts(s, iface, key, flag, init);
      AddSlotsContains(s, iface, key, flag, init, key, last);
      assert Contains(t'.embeds, key, last) <==> Contains(s.embeds, key, last);
      if !Contains(s.embeds, key, last) {
        assert Missing(s.embeds, key, slots) == Missing(s.embeds, key, init) + [last];
        AppendedStep(s, t', iface, key, flag, Missing(s.embeds, key, init), last);
      } else {
        assert Missing(s.embeds, key, slots) == Missing(s.embeds, key, init);
        assert AddSlots(s, iface, key, flag, slots) == t';
      }
    }
  }

  // ---------------------------------------------------------------------------
  // itemAdded

  /** `itemAdded` keeps the invariant, never touches existing wrappers and never reuses a window. */
  lemma ItemAddedPreservesInv(s: HostState, l: FlagLayout, iface: ItemInterface, key: string, flag: bv32)
    requires Inv(s)
    ensures var t := ItemAdded(s, l, iface, key, flag);
            && Inv(t)
            && OneItemPerSlot(t.items)
            && s.nextWindow <= t.nextWindow
            && forall h :: h in s.embeds ==> h in t.embeds && t.embeds[h] == s.embeds[h]
  {
    AddSlotsFacts(s, iface, key, flag, SelectedSlots(l, flag));
    InvGivesOneItemPerSlot(ItemAdded(s, l, iface, key, flag));
  }

  /** After `itemAdded`, `contains(key, slot)` holds for every selected slot, and nothing else becomes contained. */
  lemma ItemAddedContains(s: HostState, l: FlagLayout, iface: ItemInterface, key: string, flag: bv32, k: string, y: Slot)
    requires Inv(s)
    ensures Contains(ItemAdded(s, l, iface, key, flag).embeds, k, y)
            <==> Contains(s.embeds, k, y) || (k == key && y in SelectedSlots(l, flag))
  {
    AddSlotsContains(s, iface, key, flag, SelectedSlots(l, flag), k, y);
  }

  /** A repeated `itemAdded` with the same flags creates no wrapper and appends no item. */
  lemma ItemAddedIdempotent(s: HostState, l: FlagLayout, iface: ItemInterface, iface': ItemInterface, key: string, flag: bv32)
    requires Inv(s)
    ensures var t := ItemAdded(s, l, iface, key, flag);
            ItemAdded(t, l, iface', key, flag) == t
  {
    var slots := SelectedSlots(l, flag);
    forall y | y in slots ensures Contains(ItemAdded(s, l, iface, key, flag).embeds, key, y) {
      ItemAddedContains(s, l, iface, key, flag, key, y);
    }
    AddSlotsWhenPresent(ItemAdded(s, l, iface, key, flag), iface', key, flag, slots);
  }

  /**
   * `itemAdded` appends exactly one item per selected slot not already held for `key`,
   * keeps the earlier items, and gives each new item's wrapper the plugin's name, the key,
   * the branch's slot, the resolved flags and the plugin's size policy.
   */
  lemma ItemAddedGrowth(s: HostState, l: FlagLayout, iface: ItemInterface, key: string, flag: bv32)
    requires Inv(s)
    ensures var t := ItemAdded(s, l, iface, key, flag);
            var miss := Missing(s.embeds, key, SelectedSlots(l, flag));
            && |t.items| == |s.items| + |miss|
            && t.items[..|s.items|] == s.items
            && forall i :: |s.items| <= i < |t.items| ==>
                 && t.items[i].itemKey == key
                 && t.items[i].slot == miss[i - |s.items|]
                 && t.items[i].flags == flag
                 && t.items[i].window !in s.embeds
                 && t.items[i].window in t.embeds
                 && t.embeds[t.items[i].window]
                    == EmbedWrapper(iface.pluginName, key, Some(t.items[i].slot), flag, iface.sizePolicy)
  {
    var slots := SelectedSlots(l, flag);
    assert NoDuplicates(slots) by {
      forall i, j | 0 <= i < j < |slots| ensures slots[i] != slots[j] {
        assert Rank(slots[i]) < Rank(slots[j]);
      }
    }
    AddSlotsGrowth(s, iface, key, flag, slots);
  }

  /** The slots `Missing` reports are exactly the selected ones not yet held. */
  lemma {:induction false} MissingMembers(embeds: map<Handle, EmbedWrapper>, key: string, slots: seq<Slot>, y: Slot)
    ensures y in Missing(embeds, key, slots) <==> y in slots && !Contains(embeds, key, y)
    decreases |slots|
  {
    if slots != [] {
      var init := slots[..|slots| - 1];
      MissingMembers(embeds, key, init, y);
      assert slots == init + [slots[|slots| - 1]];
    }
  }

  /** An empty registry holds nothing, so every slot is missing. */
  lemma {:induction false} MissingFromEmpty(key: string, slots: seq<Slot>)
    ensures Missing(map[], key, slots) == slots
    decreases |slots|
  {
    if slots != [] {
      MissingFromEmpty(key, slots[..|slots| - 1]);
      assert !Contains(map[], key, slots[|slots| - 1]);
      assert slots == slots[..|slots| - 1] + [slots[|slots| - 1]];
    }
  }

  /** A plugin whose flags fall back to the unadapted default gets a Tray item unless it already has one. */
  lemma FallbackAddsTrayItem(s: HostState, l: FlagLayout, iface: ItemInterface, key: string, src: FlagSource)
    requires Inv(s) && FallsBack(src) && l.attributeNormal != 0
    requires !Contains(s.embeds, key, Tray)
    ensures var t := ItemAdded(s, l, iface, key, ResolveFlags(l, src));
            exists i :: |s.items| <= i < |t.items| && t.items[i].itemKey == key && t.items[i].slot == Tray
  {
    var flag := ResolveFlags(l, src);
    FallbackSelectsTray(l, src);
    var miss := Missing(s.embeds, key, SelectedSlots(l, flag));
    MissingMembers(s.embeds, key, SelectedSlots(l, flag), Tray);
    var j :| 0 <= j < |miss| && miss[j] == Tray;
    ItemAddedGrowth(s, l, iface, key, flag);
    var t := ItemAdded(s, l, iface, key, flag);
    var i := |s.items| + j;
    assert t.items[i].slot == Tray;
  }

  // ---------------------------------------------------------------------------
  // Geometry of embedded items

  predicate ResizesOnGeometry(s: HostState, h: Handle)
  {
    Link(h, EventGeometry) in s.links && h in s.embeds && s.embeds[h].slot == Some(Quick)
  }

  /**
   * The geometry lambda of `initConnections`: an `eventGeometry` from the wrapper of
   * window `h` resizes the item owning `h`, and only when that wrapper's type is Quick.
   */
  function GeometryChanged(s: HostState, h: Handle, size: Size): (t: HostState)
    ensures t.embeds == s.embeds && t.links == s.links && t.nextWindow == s.nextWindow
    ensures |t.items| == |s.items|
    ensures !ResizesOnGeometry(s, h) ==> t == s
    ensures forall i :: 0 <= i < |s.items| ==>
      if ResizesOnGeometry(s, h) && s.items[i].window == h
      then t.items[i] == s.items[i].(widgetSize := Some(size))
      else t.items[i] == s.items[i]
  {
    if ResizesOnGeometry(s, h) then
      s.(items := seq(|s.items|, i requires 0 <= i < |s.items| =>
                        if s.items[i].window == h then s.items[i].(widgetSize := Some(size)) else s.items[i]))
    else s
  }

  lemma GeometryPreservesInv(s: HostState, h: Handle, size: Size)
    requires Inv(s)
    ensures Inv(GeometryChanged(s, h, size))
  {
  }
}
