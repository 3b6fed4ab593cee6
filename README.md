# Dock widget-plugin loader: registries and item lifecycle

This project models the core of `dock::WidgetPlugin`, the loader that hosts a
widget plugin in the desktop shell's dock, and proves properties of that model.
The loader does three things:

- It sorts each plugin item into presentation slots (Quick, Tray, Fixed) from the
  plugin's flag bitmask.
- For every slot the item needs, it creates one item with its own native window,
  and registers that window's wrapper in the process-wide `EmbedPlugin` registry.
  It first asks the registry whether the item key already holds that slot.
- It registers popup applets in the `PluginPopup` registry, connecting the resize
  handler only once per popup. It also broadcasts plugin messages to every
  embedded wrapper.

Modules, one per component:

- `Handles` (handles.dfy): window handles, sizes, and the get-or-create lookup
  both registries use.
- `PluginFlags` (flags.dfy): the flag bits, slot selection and `getPluginFlags`.
  The numeric values of `Dock::PluginFlag` are defined outside the modelled file,
  so they are parameters (`FlagLayout`). The loader's `int` mask is its 32-bit
  pattern (`bv32`), and `flag & bit` is read as `mask & bit != 0`.
- `EmbedRegistry` (embed.dfy): the embed side as a pure state machine over
  `HostState`. That state holds the registry map (handle -> wrapper record), the
  loader's `m_pluginItems`, the connections made by `initConnections`, and the
  next free window handle. `ItemAdded` is a fold of one branch (`AddSlot`) over
  the selected slots.
- `PopupRegistry` (popup.dfy): the popup registry, its resize handlers and what a
  popup geometry event does.
- `WidgetPlugins` (widgetplugin.dfy): the imperative form.
  - `Registries` holds the two static tables and the window supply.
  - `WidgetPlugin` holds `m_pluginItems` and its connections.
  - Every state-changing method is proved equal to the pure transition.
  - `MessageCallback` loops over the registry.

`EmbedPlugin::contains` and `EmbedPlugin::get` are defined outside the modelled
file. `get` is modelled as get-or-create. `contains(k, t)` holds when some wrapper
has item key `k` and type `t`. A wrapper that `get` has just created has no type
yet (`slot == None`), because its default type is not shown.

Plugin queries are inputs of each call, not state:

- `FlagSource` gives V2 `flags()`, or the loader instance and the parse result of
  its `pluginFlags` property.
- `ItemInterface` gives a plugin's name, its size policy and whether it has the V2
  interface.
- Facet presence and the applet window are also inputs.

The two registries take their plugin id from different plugins, as in the code.
A new item's wrapper gets the name of the `itemInter` passed to `itemAdded`. A
popup wrapper gets the name of the loader's own plugin interface
(`WidgetPlugin.pluginName`).

`itemUpdate` also refreshes `m_pluginItem` first (line 101); `itemRemoved` hides
only the other four facets (lines 118-128).

`initConnections` passes `Qt::UniqueConnection` to all three of its first
connections, but Qt honours that flag only for member-function slots. The theme
handler (lines 229-231) is a lambda, so the model appends it unconditionally like
the geometry lambda, and only the position and message connections (lines 233-234)
are deduplicated.

## Model

| member | source | states |
|---|---|---|
| `Handles.GetOrCreate` | panels/dock/dockplugin/loader/widgetplugin.cpp:50 | `get(handle)` always yields an entry for the handle, keeps every existing wrapper and adds a blank one only for an unknown handle |
| `Handles.GetOrCreateIsIdempotent` | panels/dock/dockplugin/loader/widgetplugin.cpp:169 | a second lookup of the same handle changes nothing |
| `PluginFlags.SelectedSlots` | panels/dock/dockplugin/loader/widgetplugin.cpp:45-81 | Quick iff `Type_Quick`; Tray iff any of `Type_Quick`, `Type_System`, `Type_Tray`, `Attribute_Normal`; Fixed iff `Type_Tool`; visited in branch order, each at most once |
| `PluginFlags.QuickAloneFansOut` | panels/dock/dockplugin/loader/widgetplugin.cpp:45-64 | a mask of only `Type_Quick` selects exactly Quick then Tray |
| `PluginFlags.NoSlotBitsSelectNothing` | panels/dock/dockplugin/loader/widgetplugin.cpp:45-81 | a mask with none of the slot bits selects no slot |
| `PluginFlags.UnadaptedFlags` | panels/dock/dockplugin/loader/widgetplugin.cpp:245 | no contract of its own: the constant `Type_Unadapted \| Attribute_Normal`; `ResolveFlags` and `FallbackSelectsTray` state when it is used and what it selects |
| `PluginFlags.ResolveFlags` | panels/dock/dockplugin/loader/widgetplugin.cpp:243-263 | V2 `flags()` wins; otherwise a missing loader instance or a failed parse gives `Type_Unadapted \| Attribute_Normal`; otherwise the parsed value |
| `PluginFlags.FallbackSelectsTray` | panels/dock/dockplugin/loader/widgetplugin.cpp:243-263 | with the fallback mask, Tray is always selected; Quick or Fixed only if the default mask overlaps `Type_Quick` or `Type_Tool` |
| `EmbedRegistry.ConnectUnique` | panels/dock/dockplugin/loader/widgetplugin.cpp:233-234 | a unique connection is present afterwards and is appended only when it was absent |
| `EmbedRegistry.InitConnections` | panels/dock/dockplugin/loader/widgetplugin.cpp:224-241 | for a window with no connections yet: theme, position and message connections, then the geometry lambda, appended once each |
| `EmbedRegistry.InitConnectionsExtends` | panels/dock/dockplugin/loader/widgetplugin.cpp:224-241 | for any existing connections: the old ones are kept as a prefix, the theme lambda is appended first and the geometry lambda last, the position and message connections are present, and every new connection comes from the item's window |
| `EmbedRegistry.Contains` | panels/dock/dockplugin/loader/widgetplugin.cpp:46 | no contract of its own: `EmbedPlugin::contains(itemKey, type)` as "some wrapper has this key and this slot"; specified through `AddSlotContains`, `ItemAddedContains` and `MissingMembers` |
| `EmbedRegistry.NewWrapper` | panels/dock/dockplugin/loader/widgetplugin.cpp:52-56 | no contract of its own: the metadata the five setters write; `ItemAddedGrowth` states it field by field |
| `EmbedRegistry.AddSlot` | panels/dock/dockplugin/loader/widgetplugin.cpp:46-59 | no contract of its own: one branch of `itemAdded` (also lines 63-77 and 80-94); specified by `AddSlotWhenAbsent`, `AddSlotContains` and `AddSlotPreservesInv` |
| `EmbedRegistry.AddSlotWhenAbsent` | panels/dock/dockplugin/loader/widgetplugin.cpp:46-59 | a branch whose pair is not contained adds exactly one wrapper with the new metadata, one item on the next window and that window's connections |
| `EmbedRegistry.AddSlots` | panels/dock/dockplugin/loader/widgetplugin.cpp:45-94 | no contract of its own: the three branches in order; specified by `AddSlotsContains`, `AddSlotsWhenPresent` and `AddSlotsGrowth` |
| `EmbedRegistry.ItemAdded` | panels/dock/dockplugin/loader/widgetplugin.cpp:41-97 | no contract of its own: the whole of `itemAdded` once the flags are known; specified by `ItemAddedPreservesInv`, `ItemAddedContains`, `ItemAddedIdempotent` and `ItemAddedGrowth` |
| `EmbedRegistry.InvGivesOneItemPerSlot` | panels/dock/dockplugin/loader/widgetplugin.cpp:46-94 | under the registry invariant, no two items share an item key and a slot |
| `EmbedRegistry.AddSlotContains` | panels/dock/dockplugin/loader/widgetplugin.cpp:46-59 | one branch makes `contains(key, slot)` true and changes `contains` for no other pair |
| `EmbedRegistry.AddSlotPreservesInv` | panels/dock/dockplugin/loader/widgetplugin.cpp:46-59 | one branch keeps one wrapper per (key, slot), fresh windows, item/wrapper agreement and duplicate-free connections |
| `EmbedRegistry.AddSlotsGrowth` | panels/dock/dockplugin/loader/widgetplugin.cpp:47-94 | the branches append one item and one wrapper per missing slot, on consecutive new windows |
| `EmbedRegistry.ItemAddedPreservesInv` | panels/dock/dockplugin/loader/widgetplugin.cpp:41-97 | `itemAdded` keeps the invariant, at most one item per (key, slot), and never alters an existing wrapper |
| `EmbedRegistry.ItemAddedContains` | panels/dock/dockplugin/loader/widgetplugin.cpp:41-97 | afterwards `contains(k, y)` holds iff it held before or `k` is the added key and `y` a selected slot |
| `EmbedRegistry.ItemAddedIdempotent` | panels/dock/dockplugin/loader/widgetplugin.cpp:41-97 | a repeated `itemAdded` with the same key and flags leaves registry, items and connections unchanged |
| `EmbedRegistry.ItemAddedGrowth` | panels/dock/dockplugin/loader/widgetplugin.cpp:47-94 | items grow by exactly the selected slots not yet held; old items are unchanged; each new item has a new window whose wrapper holds the plugin name, key, branch slot, resolved flags and size policy |
| `EmbedRegistry.MissingMembers` | panels/dock/dockplugin/loader/widgetplugin.cpp:46-81 | a slot is created iff it is selected and not yet held for the key |
| `EmbedRegistry.FallbackAddsTrayItem` | panels/dock/dockplugin/loader/widgetplugin.cpp:44-77 | a plugin whose flags fall back to the default gets a new Tray item unless the key already holds Tray |
| `EmbedRegistry.GeometryChanged` | panels/dock/dockplugin/loader/widgetplugin.cpp:236-240 | a geometry event resizes only the item owning the window, only its size, and only when the wrapper's type is Quick; nothing else changes |
| `EmbedRegistry.GeometryPreservesInv` | panels/dock/dockplugin/loader/widgetplugin.cpp:236-240 | a geometry event keeps the registry invariant |
| `PopupRegistry.RegisterPopup` | panels/dock/dockplugin/loader/widgetplugin.cpp:168-179 | the popup has plugin id, key and `PopupTypeEmbed`; other popups are untouched; a resize handler is added iff the handle was not registered |
| `PopupRegistry.RegisterPopupPreservesInv` | panels/dock/dockplugin/loader/widgetplugin.cpp:168-175 | after registration the popup has exactly one resize handler, and no popup has two |
| `PopupRegistry.RegisterPopupAgain` | panels/dock/dockplugin/loader/widgetplugin.cpp:168-179 | repeating the request adds no handler; the latest call's metadata wins |
| `PopupRegistry.PopupGeometryResizes` | panels/dock/dockplugin/loader/widgetplugin.cpp:171-174 | a popup geometry event triggers one `setFixedSize` to exactly the reported size per connected handler |
| `PopupRegistry.ShownAppletFollowsGeometry` | panels/dock/dockplugin/loader/widgetplugin.cpp:168-174 | once shown, an applet is resized exactly once per geometry event, to the reported size |
| `WidgetPlugins.MessageCallback` | panels/dock/dockplugin/loader/widgetplugin.cpp:265-278 | exactly one `requestMessage(msg)` per registry entry (none for an empty registry), no wrapper twice, and always the ack `{code: 0}` |
| `WidgetPlugins.Registries.NewWindow` | panels/dock/dockplugin/loader/widgetplugin.cpp:47-50 | each new item gets a window handle never handed out before |
| `WidgetPlugins.Registries.GetEmbed` | panels/dock/dockplugin/loader/widgetplugin.cpp:50 | `EmbedPlugin::get` is get-or-create |
| `WidgetPlugins.Registries.SetEmbedMetadata` | panels/dock/dockplugin/loader/widgetplugin.cpp:52-56 | the five setters overwrite flags, plugin id, item key, type and size policy of one wrapper |
| `WidgetPlugins.Registries.GetPopup` | panels/dock/dockplugin/loader/widgetplugin.cpp:169 | `PluginPopup::get` is get-or-create |
| `WidgetPlugins.Registries.ConnectPopupResize` | panels/dock/dockplugin/loader/widgetplugin.cpp:171-174 | the popup resize connection has no uniqueness check of its own |
| `WidgetPlugins.Registries.SetPopupMetadata` | panels/dock/dockplugin/loader/widgetplugin.cpp:177-179 | plugin id, item key and `PopupTypeEmbed` are overwritten on every call |
| `WidgetPlugins.WidgetPlugin.constructor` | panels/dock/dockplugin/loader/widgetplugin.cpp:22-26 | a new loader has no items and no connections and keeps the invariant over the shared registries |
| `WidgetPlugins.WidgetPlugin.ConnectUnique` | panels/dock/dockplugin/loader/widgetplugin.cpp:233-234 | implements `EmbedRegistry.ConnectUnique` |
| `WidgetPlugins.WidgetPlugin.InitConnections` | panels/dock/dockplugin/loader/widgetplugin.cpp:224-241 | implements `EmbedRegistry.InitConnections` |
| `WidgetPlugins.WidgetPlugin.CreateItem` | panels/dock/dockplugin/loader/widgetplugin.cpp:47-59 | the body of one branch is `EmbedRegistry.AddSlot` on the object state and keeps `Valid()` |
| `WidgetPlugins.WidgetPlugin.AddToSlot` | panels/dock/dockplugin/loader/widgetplugin.cpp:46-60 | `contains` is checked before anything is created |
| `WidgetPlugins.WidgetPlugin.ItemAdded` | panels/dock/dockplugin/loader/widgetplugin.cpp:41-97 | the new state is `EmbedRegistry.ItemAdded` of the old under the resolved flags; the popup registry is untouched; `Valid()` is kept |
| `WidgetPlugins.WidgetPlugin.ItemUpdate` | panels/dock/dockplugin/loader/widgetplugin.cpp:99-115 | exactly the present facets are refreshed, in source order; no registry or item changes |
| `WidgetPlugins.WidgetPlugin.ItemRemoved` | panels/dock/dockplugin/loader/widgetplugin.cpp:116-130 | exactly the present facets other than `m_pluginItem` are hidden, in source order; nothing is evicted |
| `WidgetPlugins.WidgetPlugin.RequestSetAppletVisible` | panels/dock/dockplugin/loader/widgetplugin.cpp:140-181 | a null applet changes nothing; otherwise the popup registry becomes `RegisterPopup` of the old; the V2 notice is sent iff there is an applet and the plugin has V2; the applet is shown whatever `visible` says |
| `WidgetPlugins.QuickPluginFromEmpty` | panels/dock/dockplugin/loader/widgetplugin.cpp:41-97 | from an empty dock a `Type_Quick`-only plugin gets a Quick item then a Tray item, and adding it again changes nothing |
| `WidgetPlugins.QuickPluginScenario` | panels/dock/dockplugin/loader/widgetplugin.cpp:45-77 | a `Type_Quick` plugin added twice to an empty dock has exactly a Quick and a Tray item; a null applet registers no popup |

## Left out

- Widget effects are not modelled: painting, `update()`, `hide()`/`show()`, `winId()`, `setParent`, the translucent attribute, `setFixedSize` on the widget itself, and `item->windowHandle()->hide()`. Only which facets are touched, the last size given to an item, and the sizes a popup's resize handlers pass to `setFixedSize` (`PopupRegistry.PopupGeometryResizes`) are recorded.
- The deferred `init` call in the constructor, and its `setMessageCallback` registration, are left out. They depend on event-loop scheduling and plugin code.
- Signals are recorded as connections only. Only two deliveries are modelled: the geometry lambda (`GeometryChanged`) and the popup resize handler. What the theme, position and message handlers do is not modelled: `setPaletteType` is global toolkit state, and the rest forwards into plugin code.
- `onDockPositionChanged` and `onDockDisplayModeChanged` are left out. They cache a `qApp` property and forward to plugin code.
- `onDockEventMessageArrived` is left out. It forwards the message to the plugin when it has the V2 interface.
- The no-op stubs `requestWindowAutoHide`, `requestRefreshWindowVisible`, `saveValue` and `removeValue` are left out, and so is `getValue`, which returns its fallback. `getPlugin` (lines 217-222) is not called in the modelled file.
- The JSON text of the container notice and of the ack is not built. The notice is the boolean `notified`, and the ack is `Ack(0)`.
- Logging is left out.
- `initConnections`'s null check on the wrapper is unreachable here, because `get` never yields null in the model.
- The internals of `EmbedPlugin` and `PluginPopup` are not shown. `contains`, `get` and `all()` are modelled over finite maps, and `all()` in an arbitrary order.
- `PopupRegistry.PopupInv`: this invariant assumes that popups are created only by `requestSetAppletVisible`. Popups created by code outside the modelled file would have no resize handler from this loader.
- WidgetPlugins.WidgetPlugin.Valid: the invariant is proved for one loader at a time. Two loaders that share the registries are not modelled side by side, although the model of each reads and writes the shared tables.
- The numeric values of the flag constants are not shown, so they are parameters. A lemma that needs two flags to be disjoint says so in its `requires`.
