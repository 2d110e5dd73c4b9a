# riftbar core, modelled in Dafny

riftbar is a GTK status bar for Wayland compositors. This project models the parts of it that decide something, as pure functions over immutable data, and proves what they promise.

- **StatusNotifierItem tray.** There are two watcher variants. The dbus-rs watcher (`TrayWatcher`) keeps two registries keyed by bus name. The zbus watcher (`SetWatcher`) keeps two sets of service strings. Each registration or vanished name is a transition that returns the new state and the list of signals emitted. Shared bus constants and signals are in `Sni`.
- **Tray host.** `TrayHost` models the host's side of the tray: decoding the watcher's payload, the default-filling in `create_tray_item`, the icon guess, and the host's item cache. `TrayBridge` connects watcher signals to host reactions. `DbusMenu` decodes a `com.canonical.dbusmenu` `GetLayout` tree over a small value datatype and flattens it in pre-order.
- **Status modules.** There is one module for each status widget:
  - `Workspaces`: the Hyprland workspace list, its completion, the labels, the `active` class and the poll step.
  - `ActiveWindow`: the JSON field lookup, Hyprland event lines, the i3/Sway IPC header, and the display text.
  - `Network`, `Battery`, `Audio`: threshold tables, CSS classes, templates, and parsing of the command and sysfs outputs.
  - `Mpris`: status, icon, template, truncation, classes, tooltip and metadata.
  - `Layout`: the revealer and box containers (orientation, transition, reveal state, nested defaults, module-name dispatch).
- **Helpers.** `Util` holds `take_chars` and the shared truncation rule. `Base` holds the Rust standard-library string and integer behaviour the modules rely on: `find`, `split`, `replace`, `trim`, `split_whitespace`, `lines`, `parse::<i32>` and `to_string`.

Commands, files, environment variables and D-Bus replies are inputs to the functions: `Option` values, command results, or oracle functions from a query to its answer. Three behaviours of the code are easy to misread, and the model follows the code in each:

- **Label cleanup.** `clean_menu_label` (src/modules/tray/widget.rs:679-681) deletes every underscore, not only a single mnemonic marker, so `a__b` shows as `ab`.
- **Service strings on the host.** `parse_service_string` (src/modules/tray/widget.rs:362-370) splits a service string at its first `/`. It does not use the watcher's rule, under which only a string starting with `/` is an object path. A registration such as `org.foo/bar` is therefore kept by the watcher under `org.foo/bar` but cached by the host under `org.foo` (`TrayBridge.SlashedServiceKeyedApart`).
- **Vanished owners.** The host's cache (src/modules/tray/widget.rs:171-210) drops an item only on `StatusNotifierItemUnregistered`. It does not watch bus names itself.

## Model

| member | source | states |
|---|---|---|
| TrayWatcher.Start | src/modules/tray_watcher.rs:47-50 | The watcher starts with both registries empty and well formed. |
| TrayWatcher.Resolve | src/modules/tray_watcher.rs:91-97 | A service starting with `/` is the object path, and the caller's name is the bus name. Any other service is the bus name, with the given default path. The path is absolute whenever the default is. |
| TrayWatcher.RegisterItem | src/modules/tray_watcher.rs:104-127 | A bus name already registered changes nothing and emits nothing. Otherwise exactly one entry is inserted under the resolved bus name, and one `ItemRegistered(bus_name ++ object_path)` is emitted. Hosts are untouched and well-formedness is kept. |
| TrayWatcher.RegisterHost | src/modules/tray_watcher.rs:141-176 | Hosts use the same resolution with `/StatusNotifierHost`, and a known bus name is a silent no-op. `HostRegistered` is emitted exactly when the host registry was empty. Items are untouched. |
| TrayWatcher.NameVanished | src/modules/tray_watcher.rs:235-263 | The name leaves both registries and nothing else changes. `ItemUnregistered` with the removed entry's payload is emitted iff an item was removed. No host signal is ever emitted. |
| TrayWatcher.NameOwnerChanged | src/modules/tray_watcher.rs:211-218 | Only an empty new owner triggers vanishing. Any other owner change leaves the state and signals untouched. |
| TrayWatcher.ProtocolVersion | src/modules/tray_watcher.rs:80 | The protocol version is 0. |
| TrayWatcher.HostRegisteredFollowsHosts | src/modules/tray_watcher.rs:76-77 | `IsStatusNotifierHostRegistered` holds after any host registration and is unaffected by item registration. After a name vanishes it holds iff another host remains. |
| TrayWatcher.RegisteredItems | src/modules/tray_watcher.rs:65-73 | The list has one `bus_name ++ object_path` per registered entry, each entry exactly once, in some order. |
| TrayWatcher.RegisterItemIdempotent | src/modules/tray_watcher.rs:106-110 | Registering the same item a second time is a silent no-op. |
| TrayWatcher.RegisterHostIdempotent | src/modules/tray_watcher.rs:154-157 | Registering the same host a second time is a silent no-op. |
| TrayWatcher.ReRegisterAfterVanish | src/modules/tray_watcher.rs:235-247 | After its owner vanishes, an item can register again and is announced again. |
| TrayWatcher.RegisterThenVanishPayloads | src/modules/tray_watcher.rs:126 | A fresh registration followed by its owner vanishing announces the same payload in both signals and restores the item registry. |
| TrayWatcher.HostSignalOnlyOnFirst | src/modules/tray_watcher.rs:159-176 | Across any batch of host registrations, at most one `HostRegistered` is emitted. It is emitted iff the registry started empty and the batch is non-empty. |
| TrayWatcher.RegisterHosts | src/modules/tray_watcher.rs:141-176 | A batch of host registrations never touches the item registry. An empty batch changes nothing and emits nothing. |
| TrayWatcher.ItemSignalsCountNewEntries | src/modules/tray_watcher.rs:104-127 | Across any batch of item registrations, existing entries are kept. There is one `ItemRegistered` per new entry and no other signal. |
| TrayWatcher.RegisterItems | src/modules/tray_watcher.rs:104-127 | A batch of item registrations never touches the host registry. |
| Sni.CountHostSignalsAppend | src/modules/tray_watcher.rs:174-175 | Host signals of concatenated signal lists add up. |
| SetWatcher.New | src/modules/tray/watcher.rs:15-20 | A new watcher has empty item and host sets. |
| SetWatcher.RegisterItem | src/modules/tray/watcher.rs:64-82 | The service string is stored verbatim. `ItemRegistered(service)` is emitted iff it was not already in the set. Hosts are untouched. |
| SetWatcher.RegisterHost | src/modules/tray/watcher.rs:85-103 | Every host string not yet in the set is added and announced, not only the first. A known one is silent. |
| SetWatcher.HostRegisteredAfterRegister | src/modules/tray/watcher.rs:113-117 | `IsStatusNotifierHostRegistered` holds after any host registration and is unaffected by item registration. |
| SetWatcher.ProtocolVersion | src/modules/tray/watcher.rs:119-123 | The protocol version is 0. |
| SetWatcher.RegisteredItems | src/modules/tray/watcher.rs:105-110 | The list holds exactly the set's elements, each once. |
| SetWatcher.HostSignalPerNewHost | src/modules/tray/watcher.rs:92-99 | A batch of host registrations adds its strings to the set. It emits one `HostRegistered` per string that was not registered before. |
| SetWatcher.RegisterHosts | src/modules/tray/watcher.rs:85-103 | A batch of host registrations never touches the item set. |
| TrayHost.ParseServiceString | src/modules/tray/widget.rs:362-370 | Without a `/`, the whole string is the bus name and the path is `/StatusNotifierItem`. Otherwise the split is at the first `/`: the bus name has no `/`, and the path starts with `/`. |
| TrayHost.ParseServiceStringInvertsPayload | src/modules/tray/widget.rs:362-370 | For a bus name without `/` and an absolute path, parsing the watcher payload `bus ++ path` gives back `(bus, path)`. |
| TrayHost.GetSniProperty | src/modules/tray/widget.rs:392-416 | The KDE interface is asked first, then Ayatana. `Menu` also accepts an object-path reply. The result is absent iff neither interface gave a usable reply. |
| TrayHost.FirstRule | src/modules/tray/widget.rs:419-441 | The rule-table reading returns the fallback or one of the table's icons. |
| TrayHost.AnyOccursSingle | src/modules/tray/widget.rs:421 | A one-keyword rule matches iff the keyword occurs. |
| TrayHost.GuessIconFromName | src/modules/tray/widget.rs:419-441 | The icon is one of the fixed icon names or the ASCII-lowercased name. A name containing "discord" gives "discord". |
| TrayHost.GuessIconFollowsRuleTable | src/modules/tray/widget.rs:419-441 | The if-chain equals the first matching rule of the ordered keyword table, falling back to the lowercased name. |
| TrayHost.FirstFourRules | src/modules/tray/widget.rs:421-428 | The discord, spotify, telegram and steam rules are checked in that order, ahead of the rest. |
| TrayHost.LastFourRules | src/modules/tray/widget.rs:429-439 | The network, bluetooth, audio-or-volume and tuxedo rules are checked in that order, then the fallback. |
| TrayHost.CreateTrayItem | src/modules/tray/widget.rs:372-389 | The bus name and path come from `parse_service_string`. A missing title becomes the bus name, a missing icon the guessed icon, and a missing menu `/MenuBar`. |
| TrayHost.RefreshedIconName | src/modules/tray/widget.rs:289-291 | A refresh keeps a non-empty fetched icon name. An absent or empty one is replaced by the guess. |
| TrayHost.OnItemRegistered | src/modules/tray/widget.rs:176-186 | The item built from the payload is cached under its bus name and one `Add` is sent. The cache stays keyed by bus name. |
| TrayHost.OnItemUnregistered | src/modules/tray/widget.rs:200-206 | The payload's bus name is removed from the cache. `Remove(bus)` is sent only if it was cached. |
| TrayHost.OnInitialItems | src/modules/tray/widget.rs:152-166 | Every enumerated service gives exactly one `Add` of the item built from it, in list order. A well-formed cache stays well formed. |
| TrayHost.InitialItemsKeys | src/modules/tray/widget.rs:155-162 | After enumeration, the cache keys are the old keys plus the bus name of every service. |
| TrayHost.InitialItemsKeepOthers | src/modules/tray/widget.rs:155-162 | A cached item whose bus name no service parses to is kept unchanged. |
| TrayHost.InitialItemsLastWins | src/modules/tray/widget.rs:155-162 | When several services share a bus name, the cache holds the item of the last of them. |
| TrayHost.OnItemSignal | src/modules/tray/widget.rs:212-250 | An icon or title change on either item interface gives `UpdateIcon(sender)`. `NewStatus` gives `UpdateStatus(sender)`. A signal without a sender gives nothing. |
| TrayHost.LookupPath | src/modules/tray/widget.rs:120-126 | The path is known iff the bus name is cached, and it is the cached object path. |
| TrayBridge.Deliver | src/modules/tray/widget.rs:171-210 | The host reacts to `ItemRegistered` and `ItemUnregistered` and ignores `HostRegistered`. |
| TrayBridge.RegisteredItemReachesHost | src/modules/tray_watcher.rs:113-127 | For a fresh registration from a sender without `/`, whose service is an object path or has no `/`, delivering the watcher's signal caches an item with the watcher's bus name and path. The host sends exactly one `Add` for it. |
| TrayBridge.SlashedServiceKeyedApart | src/modules/tray_watcher.rs:91-127 | A service such as `org.foo/bar` (with a `/`, not at the start) is registered by the watcher under itself. The host caches the announced item under a different key, the text before the first `/`, and changes no other cache entry. |
| TrayBridge.VanishedItemLeavesHost | src/modules/tray_watcher.rs:238-247 | When a registered item's owner vanishes, delivering the watcher's signal removes it from the host cache. `Remove` is sent iff it was cached. |
| DbusMenu.Flatten | src/modules/tray/widget.rs:605-607 | A dictionary iterates as one flat key, value, key, value run. |
| DbusMenu.AsIter | src/modules/tray/widget.rs:591-594 | Only containers and variants can be iterated. A variant yields exactly its inner value. |
| DbusMenu.AsStr | src/modules/tray/widget.rs:610 | A string is read through any variant wrapping, and nothing else reads as a string. |
| DbusMenu.AsI64 | src/modules/tray/widget.rs:599 | Integers and booleans (as 0 or 1) are read through any variant wrapping. |
| DbusMenu.FirstInside | src/modules/tray/widget.rs:614-617 | The first thing inside a variant is its inner value. |
| DbusMenu.CleanMenuLabel | src/modules/tray/widget.rs:679-681 | The result has no `_` and is the input with every `_` deleted. A label without `_` is unchanged. |
| DbusMenu.CleanMenuLabelIdempotent | src/modules/tray/widget.rs:679-681 | Cleaning twice equals cleaning once. |
| DbusMenu.CleanMenuLabelKeepsOthers | src/modules/tray/widget.rs:679-681 | Around an underscore, the text on either side is kept as it is, in order. |
| DbusMenu.ApplyPair | src/modules/tray/widget.rs:610-650 | Each key sets only its own field. `label` is the unwrapped cleaned string and `type` marks a separator iff it is "separator". `enabled` and `visible` are true iff the unwrapped integer is non-zero. Unreadable values change nothing. |
| DbusMenu.ScanProps | src/modules/tray/widget.rs:602-654 | Properties are scanned from the defaults (enabled, visible). A non-iterable property value leaves the defaults, and the label never holds `_`. |
| DbusMenu.ScanAppendPair | src/modules/tray/widget.rs:608-653 | One more complete pair is applied after all earlier pairs. |
| DbusMenu.ScanIgnoresOddTail | src/modules/tray/widget.rs:609 | A trailing key without a value is ignored. |
| DbusMenu.OwnEntry | src/modules/tray/widget.rs:656-663 | A node contributes an entry iff it is not a separator and its label is non-empty. |
| DbusMenu.ParseMenuItem | src/modules/tray/widget.rs:590-597 | A non-iterable node or one with fewer than three elements contributes nothing. Every emitted entry has a non-empty label. |
| DbusMenu.ChildEntries | src/modules/tray/widget.rs:667-674 | A variant child is opened once. Any other child is decoded directly. |
| DbusMenu.ParseMenuReply | src/modules/tray/widget.rs:581-588 | A reply without a layout argument gives no entries. |
| DbusMenu.ParseChildrenAppend | src/modules/tray/widget.rs:666-676 | The children's output is the concatenation of each child's output, in order. |
| DbusMenu.ParseChildren | src/modules/tray/widget.rs:665-676 | Every entry decoded from a list of children has a 32-bit id and a non-empty label without `_`. |
| DbusMenu.VariantChildTransparent | src/modules/tray/widget.rs:668-674 | A variant-wrapped child yields the same entries as the child unwrapped. |
| DbusMenu.HiddenNodeKeepsChildren | src/modules/tray/widget.rs:656-676 | A separator or unlabelled node contributes no entry, but its children are still decoded. |
| DbusMenu.ShownNodeComesFirst | src/modules/tray/widget.rs:599-676 | A shown node's entry (id cut to 32 bits) comes before its children's entries (pre-order). |
| DbusMenu.QuitPropsScan | src/modules/tray/widget.rs:605-653 | A typical `Quit` property list reads as label "Quit", not a separator, enabled and visible. |
| DbusMenu.QuitPropsFlatten | src/modules/tray/widget.rs:606-607 | The `Quit` property dictionary iterates as its four key, value pairs. |
| DbusMenu.QuitNodeParse | src/modules/tray/widget.rs:590-663 | The `Quit` node decodes to the single entry `(1, "Quit", enabled, visible)`. |
| DbusMenu.QuitChildParse | src/modules/tray/widget.rs:667-671 | A variant-wrapped `Quit` child decodes to that entry. |
| DbusMenu.QuitExample | src/modules/tray/widget.rs:581-676 | A root without a label, holding one wrapped `Quit` child, decodes to exactly the `Quit` entry. |
| DbusMenu.VisibleItems | src/modules/tray/widget.rs:694 | The popup lists only visible entries from the menu, and every visible entry is listed. |
| DbusMenu.VisibleItemsAppend | src/modules/tray/widget.rs:694 | Filtering a concatenation is filtering each part, concatenated: the popup keeps the menu's order. |
| DbusMenu.VisibleItemsIdempotent | src/modules/tray/widget.rs:694 | Filtering for visibility twice equals filtering once. |
| DbusMenu.ChoosePopup | src/modules/tray/widget.rs:537-541 | The fallback menu is used iff the menu decoded to nothing. Otherwise the popup shows the visible entries. |
| DbusMenu.ActionName | src/modules/tray/widget.rs:695 | The action name is `item-` followed by a decimal that parses back to the entry id. |
| DbusMenu.ClickEvent | src/modules/tray/widget.rs:721-731 | A click sends `Event(id, "clicked", <0>, 0)`. |
| Util.TakeChars | src/shared/util.rs:16-28 | A limit of 0 gives "". Otherwise the result is the first `min(x, len)` characters, always a prefix of the input. |
| Util.CharIndexScan | src/shared/util.rs:21-25 | The char-index loop stops at the x-th character, or at the end when there are fewer. |
| Util.Ellipsize | src/modules/active_window.rs:147-152 | The text is cut to the limit plus `…` iff the limit is non-zero and exceeded, and is otherwise unchanged. The result is never longer than the limit plus one. |
| Workspaces.Insert | src/modules/hyprland_workspaces.rs:76-80 | Inserting by id keeps the list sorted and adds exactly the one element. |
| Workspaces.SortById | src/modules/hyprland_workspaces.rs:120 | The sort result is ordered by id and is a permutation of the input. |
| Workspaces.SortByIdSortedIsIdentity | src/modules/hyprland_workspaces.rs:120 | A list already sorted by id is left as it is. |
| Workspaces.SortByIdStableOnEqualIds | src/modules/hyprland_workspaces.rs:120 | Workspaces with equal ids keep their order. |
| Workspaces.DropSpecial | src/modules/hyprland_workspaces.rs:126-130 | The filtered list holds no special (negative-id) workspace, keeps every regular one, and adds nothing. |
| Workspaces.DropSpecialKeepsOrder | src/modules/hyprland_workspaces.rs:119-130 | Filtering a sorted list keeps it sorted. |
| Workspaces.Fetch | src/modules/hyprland_workspaces.rs:117-140 | The fetched list is sorted by id. It is filtered of specials unless they are shown, and is otherwise a permutation of the answer. A failed list query gives `([], -1)`, and a failed active query gives active id -1. |
| Workspaces.Fill | src/modules/hyprland_workspaces.rs:207-215 | For each id in `i..=min`, an unnamed workspace is appended iff that id is missing. Appended ids are increasing and new, and nothing is appended when `min < i`. |
| Workspaces.Complete | src/modules/hyprland_workspaces.rs:205-216 | The completed list is sorted. It contains every input workspace and every id in `1..=min`, and adds only missing unnamed ones. With `min <= 0` it is just the sorted input. |
| Workspaces.CompleteMembers | src/modules/hyprland_workspaces.rs:206-216 | After filling, every id in `1..=min` is present. Every workspace is either from the input or an unnamed fill-in whose id was missing. |
| Workspaces.SpecialName | src/modules/hyprland_workspaces.rs:225-234 | A name starting with "special" shows its text after the last `:`. Any other name has no special name. |
| Workspaces.SpecialNameAfterColon | src/modules/hyprland_workspaces.rs:225-231 | `special:scratch` shows as `scratch`. |
| Workspaces.SpecialNameWithoutColon | src/modules/hyprland_workspaces.rs:225-234 | `special` keeps its whole name, and `chat` has none. |
| Workspaces.FormattingKey | src/modules/hyprland_workspaces.rs:239 | The formatting key is `id as u32`: the id itself if non-negative, else the id plus 2^32. |
| Workspaces.FormattingKeyInjective | src/modules/hyprland_workspaces.rs:239 | Distinct ids never share a formatting key. |
| Workspaces.PreFormat | src/modules/hyprland_workspaces.rs:237-254 | The formatting-map entry comes first. Next is the special name of a special workspace. Otherwise the decimal id is used. |
| Workspaces.IconFor | src/modules/hyprland_workspaces.rs:258-265 | The active workspace gets `icons["active"]` and the others `icons["normal"]`. A missing key gives "". |
| Workspaces.NoBracesInIdPattern | src/modules/hyprland_workspaces.rs:256 | `{id}` does not contain `{}`, so the second replacement sees every placeholder. |
| Workspaces.DefaultFormatLabel | src/modules/hyprland_workspaces.rs:163 | The default format `{id}` without icons shows the pre-format text. |
| Workspaces.EmptyBracesMeanId | src/modules/hyprland_workspaces.rs:256 | `{}` and `{id}` give the same label. |
| Workspaces.IconOnlyLabel | src/modules/hyprland_workspaces.rs:256-266 | A format of just `{icon}` shows exactly the chosen icon. |
| Workspaces.LabelIsFillTemplate | src/modules/hyprland_workspaces.rs:256-266 | The three chained replacements are one template fill: `{}` becomes `{id}`, `{id}` the pre-format text, and `{icon}` the chosen icon when icons are configured. |
| Workspaces.LabelFillsPlaceholders | src/modules/hyprland_workspaces.rs:256-266 | For any format made of text and placeholders, and brace-free pre-format text and icon, each `{}` and `{id}` shows the pre-format text, `{icon}` shows the icon when icons are configured, and every other piece is kept. |
| Workspaces.ButtonClasses | src/modules/hyprland_workspaces.rs:289-293 | A button is always a `workspace-button`. It has `active` iff its id is the active one. |
| Workspaces.RebuildButtons | src/modules/hyprland_workspaces.rs:191-300 | There is one button per completed workspace, in order, named by its decimal id. Its label and classes follow the ids given. |
| Workspaces.UpdateActiveClass | src/modules/hyprland_workspaces.rs:302-318 | Each button is restyled from the id parsed from its name (-1 if unreadable), and nothing else changes. |
| Workspaces.ActiveClassMarksActiveWorkspace | src/modules/hyprland_workspaces.rs:308-314 | On buttons showing a list, after a class update exactly the active workspace's button has `active`. |
| Workspaces.PollStepLabelled | src/modules/hyprland_workspaces.rs:158-185 | The buttons are rebuilt iff the list differs, and both readings are remembered. Otherwise only a changed active id moves the class. The remembered active id is always the new one. |
| Workspaces.PollStepAsWritten | src/modules/hyprland_workspaces.rs:158-167 | As written, a rebuild labels the icons against the previously remembered active id. |
| Workspaces.PollStep | src/modules/hyprland_workspaces.rs:158-185 | The corrected poll step labels the icons of a rebuild against the active id being applied. |
| Workspaces.UpdateKeepsSync | src/modules/hyprland_workspaces.rs:302-318 | A class update keeps the buttons in sync with their list and marks exactly the active one. |
| Workspaces.RebuildStyled | src/modules/hyprland_workspaces.rs:159-179 | Rebuilt buttons, once the deferred class update runs, show the new list, styled for the new active id. |
| Workspaces.MoveStyled | src/modules/hyprland_workspaces.rs:182-185 | Moving the class on buttons in sync leaves them styled for the new active id. |
| Workspaces.PollKeepsActiveClass | src/modules/hyprland_workspaces.rs:155-188 | Across ticks, the buttons keep showing the remembered list. The `active` class stays exactly on the remembered active workspace. |
| Workspaces.RebuildLabelsActiveIcon | src/modules/hyprland_workspaces.rs:258-263 | After a corrected rebuild, the newly active workspace's label is built with the active icon. |
| Workspaces.StaleActiveIconExample | src/modules/hyprland_workspaces.rs:159-167 | As written, going from workspace 1 to workspaces 1 and 2 with 2 active labels workspace 1 as active and 2 as normal. |
| ActiveWindow.DetectCompositor | src/modules/active_window.rs:192-200 | Hyprland wins when its signature is set, then Sway when `SWAYSOCK` is set. Otherwise the compositor is unsupported. |
| ActiveWindow.HyprlandSocketPath | src/modules/active_window.rs:210-214 | The path is `<runtime dir>/hypr/<instance>/.socket2.sock`, with runtime dir `/run/user/1000` by default. |
| ActiveWindow.FieldPattern | src/modules/active_window.rs:356 | The pattern is `"field":"`. |
| ActiveWindow.ExtractField | src/modules/active_window.rs:355-360 | No pattern means no value. After the first pattern, a value exists iff a `"` follows. The value is exactly the text from the pattern up to that first `"`. |
| ActiveWindow.QuotedFrom | src/modules/active_window.rs:357-359 | A value is found iff a `"` follows the start. It is the text up to the first one, holds no `"`, and is followed by one. |
| ActiveWindow.ExtractFieldReadsWrittenValue | src/modules/active_window.rs:355-360 | A quote-free value written after its pattern is read back exactly. |
| ActiveWindow.ExtractFieldAbsent | src/modules/active_window.rs:357 | A field whose pattern is absent reads as nothing. |
| ActiveWindow.ParseHyprlandLine | src/modules/active_window.rs:257-268 | A result exists iff the line starts with `activewindow>>` and the rest has a comma. The class runs up to the first comma and the title up to the next comma or the end of the line. |
| ActiveWindow.EventPrefixExtends | src/modules/active_window.rs:257-259 | A prefix of the text after `activewindow>>` extends the event prefix of the line. |
| ActiveWindow.HyprlandLineRoundTrip | src/modules/active_window.rs:257-268 | An event line built from a comma-free class and title parses back to them. |
| ActiveWindow.WindowFields | src/modules/active_window.rs:326-330 | A window is reported iff the output has both `class` and `title`, and it is those two fields. |
| ActiveWindow.HyprlandWindow | src/modules/active_window.rs:313-331 | Nothing is reported when `hyprctl` cannot be started or exits unsuccessfully. After a successful run, the window is what the output's fields give. |
| ActiveWindow.U32Le | src/modules/active_window.rs:290 | A 32-bit value is encoded in four little-endian bytes. |
| ActiveWindow.U32FromLe | src/modules/active_window.rs:290 | `u32::from_le_bytes` lies in `[0, 2^32)`. |
| ActiveWindow.U32LeRoundTrip | src/modules/active_window.rs:290 | Decoding an encoded value gives it back. |
| ActiveWindow.U32FromLeRoundTrip | src/modules/active_window.rs:290 | Encoding decoded bytes gives them back. |
| ActiveWindow.PayloadLength | src/modules/active_window.rs:287-290 | The payload length is header bytes 6 to 9, read little-endian, and is an unsigned 32-bit value. |
| ActiveWindow.EncodeMessage | src/modules/active_window.rs:283 | An i3 IPC message is the magic, a 14-byte header, then the payload. |
| ActiveWindow.EncodedLengthIsPayloadLength | src/modules/active_window.rs:287-292 | A reader of a well-formed message reads exactly the payload's length and type. |
| ActiveWindow.SubscribeAsWrittenOverstatesLength | src/modules/active_window.rs:283 | The literal subscribe message declares 14 payload bytes but carries the 10-byte `["window"]`. |
| ActiveWindow.SubscribeMessage | src/modules/active_window.rs:283 | The corrected subscribe message declares exactly its payload length and has type SUBSCRIBE. |
| ActiveWindow.SubscribeMessageFixesOnlyLength | src/modules/active_window.rs:283 | The correction changes only the length bytes, to `10, 0, 0, 0`. |
| ActiveWindow.SwayEvent | src/modules/active_window.rs:294-300 | Only a focus change reports a window. Its class and title are the `app_id` and `name` fields, defaulting to "". |
| ActiveWindow.SwayWindow | src/modules/active_window.rs:333-351 | A window exists iff the tree has a focused node and a `name`. The class defaults to "". |
| ActiveWindow.EffectiveNoWindowFormat | src/modules/active_window.rs:54-56 | An empty no-window text becomes "No Window". Any other text is kept. |
| ActiveWindow.DisplayText | src/modules/active_window.rs:138-144 | The title is shown if it is non-empty and the class is not preferred. Next is a non-empty class. Otherwise the no-window text is shown. |
| ActiveWindow.ButtonLabel | src/modules/active_window.rs:138-152 | The label is the display text cut by the shared truncation rule. |
| ActiveWindow.ButtonLabelShape | src/modules/active_window.rs:54-56 | The label is never empty and never longer than the limit plus one. |
| ActiveWindow.Tooltip | src/modules/active_window.rs:95-105 | The tooltip is class and title on two lines, or "No active window" without a title. |
| Network.IconForStrength | src/modules/network.rs:173-189 | Ethernet has its own icon, whatever the strength. Wifi uses bands at ≥75, ≥50, ≥25 and >0, else no signal. |
| Network.CssClass | src/modules/network.rs:146-158 | Exactly one class applies: disconnected, ethernet, excellent ≥75, good ≥50, ok ≥25, else weak. |
| Network.ClassMatchesIcon | src/modules/network.rs:146-189 | When connected, the class and the icon fall in the same band. |
| Network.FormatStringFillsPlaceholders | src/modules/network.rs:161-171 | For any format made of text and placeholders, and brace-free SSID, interface and IP, each of `{icon}`, `{essid}`, `{signalStrength}`, `{signalStrengthApp}` (strength and `%`), `{ifname}` and `{ipaddr}` shows its value, and every other piece is kept. |
| Network.FormatStringWithoutBraces | src/modules/network.rs:161-171 | A format without placeholders is shown verbatim. |
| Network.FormatStringIconOnly | src/modules/network.rs:161-171 | `{icon}` alone shows the strength icon. |
| Network.LabelText | src/modules/network.rs:127-134 | When disconnected, the disconnected text is shown verbatim. Ethernet uses the ethernet format and wifi the normal format, both filled in. |
| Network.Tooltip | src/modules/network.rs:97-116 | The tooltip is "Disconnected" when not connected. Ethernet shows `Interface:`, `Type: Ethernet` and `IP:` lines. Wifi shows `SSID:`, `Signal: <n>%`, `Interface:` and `IP:` lines. |
| Network.DbmToPercent | src/modules/network.rs:277 | The result is always in `[0, 100]`. Without wrap-around it is `clamp((dbm+100)*2, 0, 100)`: 0 at or below -100 dBm and 100 from -50 dBm up. |
| Network.DbmToPercentMonotone | src/modules/network.rs:277 | A stronger signal never gives a lower percentage. |
| Network.ParseNmcliLine | src/modules/network.rs:222-244 | A line is accepted iff it has ≥5 `:` fields, field 0 is "yes", field 4 is "wifi" and the interface passes the filter. The signal defaults to 0. |
| Network.FirstNmcliLine | src/modules/network.rs:222-245 | Nothing is found iff no line is accepted. Otherwise the first accepted line is the one used. |
| Network.SignalDbm | src/modules/network.rs:273-275 | A dBm reading is an `i32`. |
| Network.IwLine | src/modules/network.rs:268-281 | An `SSID:` line sets the trimmed SSID and keeps the strength. A `signal:` line with a readable dBm value sets the strength to its percentage, and an unreadable one changes nothing. Other lines change nothing. |
| Network.IwScan | src/modules/network.rs:264-282 | The scanned strength stays within `[0, 100]`. |
| Network.IwScanAppend | src/modules/network.rs:268-282 | Scanning one more line is one more step after the rest. |
| Network.IwScanConcat | src/modules/network.rs:268-282 | Scanning two blocks of lines is scanning the second from the state the first left. |
| Network.SignalDbmReadsWrittenValue | src/modules/network.rs:273-275 | The text after `signal:`, a space, a decimal `i32` and ` dBm`, reads back as that number. |
| Network.IwSignalReadsWrittenValue | src/modules/network.rs:272-278 | A line `signal: <n> dBm` sets the strength to the percentage of `n`. |
| Network.LastSsidWins | src/modules/network.rs:270-271 | Whatever comes before, the reported SSID is the one on the last `SSID:` line. |
| Network.IwScanKeepsSsid | src/modules/network.rs:268-282 | Lines without `SSID:` never change the SSID. |
| Network.WifiFromIw | src/modules/network.rs:252-297 | `iw` reports a wifi connection iff it ran successfully and an SSID was seen, on the filter interface or `wlan0`. The SSID and strength are the scan's, and the IP is the interface's. |
| Network.WifiFromNmcliLine | src/modules/network.rs:234-243 | An accepted nmcli line gives a connected wifi entry with its SSID, signal, interface and IP. |
| Network.WifiInfoAsWritten | src/modules/network.rs:213-250 | As written, nmcli failing to start gives no wifi, and an unsuccessful nmcli falls back to `iw`. A successful nmcli reports its first accepted line, or falls back to `iw` when it has none. |
| Base.LinesOfSingleLine | src/modules/network.rs:222 | `lines()` of a non-empty text without `\n` is that text alone, a trailing bare `\r` included. |
| Base.LinesPeelsFirst | src/modules/network.rs:222 | A line ended by `\n` loses one `\r` before the `\n`, and the text after it is split on its own. |
| Network.LastNmcliLineKeepsCr | src/modules/network.rs:222-224 | A last `nmcli` line without `\n` is judged exactly as written, including any trailing `\r`. |
| Network.NmcliCrTypeRejected | src/modules/network.rs:223-224 | A line whose type field is `wifi\r` is not accepted. |
| Network.NmcliBareCrRejected | src/modules/network.rs:222-249 | `nmcli` output whose only line ends in `wifi\r` without a newline reports no wifi, so the `iw` fallback decides. |
| Network.MissingNmcliSkipsIw | src/modules/network.rs:215-218 | Without nmcli installed, a network that `iw` sees is not reported. |
| Network.WifiInfo | src/modules/network.rs:213-250 | The corrected lookup falls back to `iw` on any nmcli failure. A successful nmcli reports its first accepted line, or falls back to `iw` when it has none. Whenever nmcli starts, it agrees with the code. |
| Network.EthernetCandidates | src/modules/network.rs:300-304 | The configured interface is probed, else `eth0`, `enp0s3` and `eno1`. |
| Network.FirstUp | src/modules/network.rs:306-326 | An interface is found iff some candidate reads "up" and every earlier probe ran without reading "up". The first such candidate is chosen. |
| Network.EthernetInfo | src/modules/network.rs:299-329 | Ethernet is found iff a candidate reads "up" before any probe fails, and it is the first such candidate. It reports full strength, no SSID, and that interface's IP. |
| Network.InetAddress | src/modules/network.rs:340-343 | A line gives an address iff it starts with `inet ` once trimmed. The address is the second word up to its first `/`, or the whole word. |
| Network.FirstInet | src/modules/network.rs:339-345 | Nothing is found iff no line gives an address. Otherwise the address comes from the first line that gives one. |
| Network.IpAddress | src/modules/network.rs:331-350 | The first IPv4 address is reported, or "N/A" when the command fails or lists none. |
| Network.GetNetworkInfo | src/modules/network.rs:191-211 | Wifi comes first, then ethernet, else the disconnected record. |
| Network.LabelShowsDisconnectedIffNothingFound | src/modules/network.rs:127-134 | The label shows the disconnected text exactly when neither wifi nor ethernet was found. |
| Battery.IconForCapacity | src/modules/battery.rs:178-205 | Charging always shows the charging icon. |
| Battery.Band | src/modules/battery.rs:184-204 | The band is the capacity's ten-point band, capped at 0 and 9. |
| Battery.IconIsBandEntry | src/modules/battery.rs:184-204 | When not charging, the icon is the level table's entry for the band. |
| Battery.LevelIconsDistinct | src/modules/battery.rs:179-204 | The ten level icons are distinct from each other and from the charging icon. |
| Battery.Template | src/modules/battery.rs:139-145 | "Full" uses `format_full` and "Charging" `format_charging`. Any other status uses `format`. |
| Battery.CssClass | src/modules/battery.rs:163-175 | Exactly one class applies: charging, full, critical ≤10, low ≤25, medium ≤50, else high. |
| Battery.ButtonTextFillsPlaceholders | src/modules/battery.rs:147-151 | For any template made of text and placeholders, and a brace-free status and time, each of `{icon}`, `{capacity}`, `{status}` and `{time}` shows its value, and every other piece is kept. |
| Battery.ButtonTextWithoutBraces | src/modules/battery.rs:147-151 | A template without placeholders is shown as it is. |
| Battery.ButtonTextIconOnly | src/modules/battery.rs:147-151 | `{icon}` alone shows the icon. |
| Battery.FindBattery | src/modules/battery.rs:242-255 | The result is the first entry starting with "BAT", and nothing iff there is none. |
| Battery.BatteryName | src/modules/battery.rs:208-213 | The configured battery is used, else the first found, else "BAT0". |
| Battery.BasePath | src/modules/battery.rs:215 | The path is `/sys/class/power_supply/<name>`. |
| Battery.ReadSysFile | src/modules/battery.rs:257-259 | A readable file gives its trimmed contents. |
| Battery.Capacity | src/modules/battery.rs:218-220 | The capacity is the trimmed file as an `i32`, and 0 when unreadable or unparsable. |
| Battery.Status | src/modules/battery.rs:223 | The status is the trimmed file, or "Unknown" when unreadable. |
| Battery.CapacityReadsWrittenValue | src/modules/battery.rs:218-220 | A capacity file holding `n` and a newline reads as `n`. |
| Battery.TrimDropsNewline | src/modules/battery.rs:258 | Trimming digits followed by a newline gives the digits. |
| Battery.UnreadableStatusIsOrdinary | src/modules/battery.rs:163-223 | An unreadable status is neither charging nor full, and shows the band icon. |
| Audio.IconForVolume | src/modules/audio.rs:206-220 | Muted or silent gives the muted icon. Otherwise the bands are ≤33, ≤66, else high. |
| Audio.CssClass | src/modules/audio.rs:195-203 | Exactly one class applies: muted, low ≤33 (volume 0 included), medium ≤66, else high. |
| Audio.ClassMatchesIcon | src/modules/audio.rs:195-220 | Unless silent and unmuted, class and icon fall in the same band. |
| Audio.Template | src/modules/audio.rs:177-181 | The template is `format_muted` iff muted. |
| Audio.LabelTextFillsPlaceholders | src/modules/audio.rs:183-185 | For any template made of text and placeholders, `{icon}` and `{volume}` show the icon and the decimal volume, and every other piece is kept. |
| Audio.LabelTextWithoutBraces | src/modules/audio.rs:183-185 | A template without placeholders is shown as it is. |
| Audio.LabelTextVolumeOnly | src/modules/audio.rs:183-185 | `{volume}` alone shows the volume in decimal, which parses back to it. |
| Audio.DetectBackend | src/modules/audio.rs:222-234 | `wpctl` wins if it starts, then `pactl`. Otherwise the backend is unknown. |
| Audio.PercentWord | src/modules/audio.rs:298-299 | A word is a percentage iff it ends in `%` and its prefix parses as an `i32`. |
| Audio.PactlVolume | src/modules/audio.rs:297-304 | The volume is the first whitespace word that reads as a percentage, else 0. |
| Audio.PactlVolumeLeadingPercent | src/modules/audio.rs:297-304 | Output starting with `<n>%` and a space reads as `n`, whatever follows. |
| Audio.PactlVolumeExample | src/modules/audio.rs:296-304 | `42%` reads as 42. `/` and `65536` are not percentages. |
| Audio.PulseInfo | src/modules/audio.rs:282-317 | The volume is 0 if the command cannot start. The sink is muted iff the mute output contains "yes". |
| Audio.PipeWireInfo | src/modules/audio.rs:248-280 | The sink is muted iff `[MUTED]` appears. An unstartable command gives volume 0, unmuted. |
| Audio.ClickAction | src/modules/audio.rs:97-104 | A click runs the configured command, or toggles mute when there is none. |
| Audio.ScrollAction | src/modules/audio.rs:112-127 | Scrolling up changes the volume by +step and down by -step, unless the corresponding command is set. |
| Audio.ToggleMuteCommand | src/modules/audio.rs:319-336 | Only an unknown backend runs no command. `wpctl set-mute @DEFAULT_AUDIO_SINK@ toggle` or `pactl set-sink-mute @DEFAULT_SINK@ toggle` is run otherwise. |
| Audio.PipeWireArg | src/modules/audio.rs:343-347 | The `wpctl` argument is a number, `%`, and a sign: `+` iff the delta is positive, `-` otherwise. |
| Audio.PulseArgAsWritten | src/modules/audio.rs:353-357 | As written, the `pactl` argument ends in `%`. It starts with `+` iff the delta is positive and with `-` iff negative, and its number parses back to the delta. |
| Audio.PulseArg | src/modules/audio.rs:352-357 | The corrected `pactl` argument is the written one, except that 0 becomes `+0%`. |
| Audio.ChangeVolumeCommandAsWritten | src/modules/audio.rs:338-361 | As written, `wpctl set-volume @DEFAULT_AUDIO_SINK@` or `pactl set-sink-volume @DEFAULT_SINK@` is run with the written change argument. An unknown backend runs nothing. |
| Audio.ChangeVolumeCommand | src/modules/audio.rs:338-361 | The corrected command is the written one with the corrected `pactl` argument. An unknown backend runs nothing. |
| Audio.ChangeVolumeCorrectionOnlyAtZero | src/modules/audio.rs:352-357 | The corrected and written commands differ exactly for `pactl` with a zero delta. |
| Audio.CommandsShareToolAndSink | src/modules/audio.rs:319-361 | Muting and volume changes use the same tool and the same default sink for each backend. |
| Audio.PipeWireArgMeansDelta | src/modules/audio.rs:343-347 | `N%+` and `N%-` ask `wpctl` for a change of exactly `delta`. |
| Audio.PulseArgAsWrittenMeansDelta | src/modules/audio.rs:353-357 | For a non-zero delta, the written `pactl` argument is a relative change of `delta`. |
| Audio.PulseZeroStepSilences | src/modules/audio.rs:353-357 | A zero step gives `0%`, which sets the sink to 0. `wpctl` leaves it unchanged. |
| Audio.PulseArgMeansDelta | src/modules/audio.rs:353-357 | The corrected `pactl` argument is a relative change of exactly `delta`, zero included. |
| Audio.PactlReadsSignedBody | src/modules/audio.rs:354-356 | A signed number followed by `%` is a relative request. |
| Audio.ScrollChangesByStep | src/modules/audio.rs:112-127 | Scrolling without a command asks either tool for a change of exactly the step. |
| Audio.BackendsAgree | src/modules/audio.rs:338-361 | With the corrected arguments, both tools end at the same volume. |
| Mpris.StatusName | src/modules/mpris/widget.rs:182-187 | Each reported state gets its name, and a failed query gives "Nothing". |
| Mpris.StatusNameRoundTrip | src/modules/mpris/widget.rs:182-187 | The name determines the query answer: no information is lost. |
| Mpris.StatusIcon | src/modules/mpris/widget.rs:212-217 | Each state has one glyph. Any other name has no icon, and no icon has a brace. |
| Mpris.Template | src/modules/mpris/widget.rs:220-225 | Playing, paused and stopped each choose their format. Anything else chooses `format_nothing`. |
| Mpris.PreDisplayFillsPlaceholders | src/modules/mpris/widget.rs:227-232 | For any template made of text and placeholders, and brace-free media fields, each of `{icon}`, `{artist}`, `{title}`, `{album}` and `{status}` shows its value, and every other piece is kept. |
| Mpris.PreDisplayWithoutBraces | src/modules/mpris/widget.rs:227-232 | A template without placeholders is shown as it is. |
| Mpris.Display | src/modules/mpris/widget.rs:235-243 | The text is truncated iff the limit is non-zero and exceeded, to `take_chars` plus `…`, so it is never longer than the limit plus one. |
| Mpris.DefaultStoppedLabel | src/modules/mpris/widget.rs:32-36 | With the defaults, a stopped player shows the stop glyph and " Stopped". |
| Mpris.GetStringFromMetadata | src/modules/mpris/widget.rs:321-336 | A string value is itself, and an array gives its first element if that is a string. Anything else, or a missing key, gives "". |
| Mpris.FirstArtistShown | src/modules/mpris/widget.rs:326-332 | A list of artists shows its first entry. |
| Mpris.ReadMediaInfo | src/modules/mpris/widget.rs:198-208 | The shared info holds the title, artist and album read from the metadata, plus the status name. |
| Mpris.PlayerTick | src/modules/mpris/widget.rs:182-246 | A failed metadata query publishes nothing. Otherwise the state sent is the status name and the label respects the limit. |
| Mpris.NoPlayerTick | src/modules/mpris/widget.rs:150-157 | With no player, "Nothing" is sent with `format_nothing` untouched. |
| Mpris.FailedStatusLooksLikeNoPlayer | src/modules/mpris/widget.rs:182-246 | A failed status query publishes what a missing player does, given a plain `format_nothing` that fits. |
| Mpris.CssClasses | src/modules/mpris/widget.rs:303-312 | The classes are `[mpris, playing]`, `[mpris, paused]`, else `[mpris, stopped]`. |
| Mpris.ClassOfStatus | src/modules/mpris/widget.rs:304-311 | A failed status query gets the "stopped" class. |
| Mpris.Tooltip | src/modules/mpris/widget.rs:281-294 | An empty title gives "No media playing". With a title, a format without placeholders is shown as it is. |
| Mpris.TooltipFillsPlaceholders | src/modules/mpris/widget.rs:283-290 | With a title, for any format made of text and placeholders and brace-free media fields, each of `{artist}`, `{title}`, `{album}` and `{status}` shows its value, and every other piece is kept. |
| Mpris.TooltipTitleOnly | src/modules/mpris/widget.rs:283-290 | With a title, the tooltip format `{title}` shows it. |
| Mpris.InitialTooltip | src/modules/mpris/widget.rs:119-124 | Before the first round the tooltip says nothing is playing. |
| Layout.OrientationOf | src/modules/revealer.rs:44-47 | "vertical" is vertical and every other string is horizontal. The box in box_module.rs uses the same rule. |
| Layout.TransitionOf | src/modules/revealer.rs:54-61 | A transition other than the default has the configured name. |
| Layout.TransitionNamesRoundTrip | src/modules/revealer.rs:54-61 | Each transition is chosen by its own name. Any unknown name slides left. |
| Layout.NestedRevealer | src/modules/revealer.rs:205-218 | Missing options become "horizontal", "", "slide_left", 200 and false. |
| Layout.NestedDefaultsAreTheDefault | src/modules/revealer.rs:22-33 | A nested revealer with every option missing matches the default configuration. |
| Layout.NestedBox | src/modules/box_module.rs:96-104 | A missing orientation becomes "horizontal". The box is vertical iff "vertical" was configured. |
| Layout.RevealerShapeOf | src/modules/revealer.rs:37-90 | There is a trigger button iff the trigger text is non-empty. The classes are `revealer-widget` and `revealer-<name>`. |
| Layout.RevealStep | src/modules/revealer.rs:76-115 | A click on a trigger toggles. With hover enabled, enter shows and leave hides. Nothing else changes the state. |
| Layout.Clicks | src/modules/revealer.rs:83-87 | The count is exactly the number of click events among the events. |
| Layout.ShownIffOddClicks | src/modules/revealer.rs:73-90 | Without hover, the content is shown iff there is a trigger and it was clicked an odd number of times. |
| Layout.LastMovementDecides | src/modules/revealer.rs:93-115 | With hover and no trigger, the last movement decides. |
| Layout.BuiltinsUnprefixed | src/modules/revealer.rs:137-168 | No built-in name carries a container prefix. |
| Layout.PrefixesExclusive | src/modules/revealer.rs:169-202 | A name carries at most one container prefix. |
| Layout.Lookup | src/modules/revealer.rs:169-171 | The stripped name is found iff it is configured. |
| Layout.BoxChild | src/modules/box_module.rs:48-113 | Built-ins are built. `custom/` and `box/` are looked up without their prefix. A missing key or any other name, `revealer/` included, gives nothing. |
| Layout.RevealerChild | src/modules/revealer.rs:135-231 | The revealer adds nested revealers under `revealer/`, looked up without the prefix. |
| Layout.DispatchersDifferOnlyOnRevealers | src/modules/box_module.rs:111-113 | Box and revealer agree on every name except `revealer/…`, which a box ignores. |
| Layout.Children | src/modules/revealer.rs:135-231 | A container gets at most one child per listed name. |
| Layout.ChildrenAppend | src/modules/revealer.rs:135 | The children of a concatenated list are each part's children, in order. |
| Layout.BuiltinsAllBuilt | src/modules/revealer.rs:137-168 | A list of built-in names yields one built-in child per name. |

## Left out

- GTK widgets, CSS mutation, popovers and timers are not modelled. Only the decisions feeding them are.
- Threads, channels, locks and timeouts are not modelled. Each operation is one atomic step.
- D-Bus connections, name requests, signal sending, matches and the processing loops are not modelled. Replies and property reads are inputs. `src/modules/tray/host.rs`, `src/modules/tray/mod.rs` and `src/modules/mpris/dbus_util.rs` are not part of this model.
- Process spawning, file access and environment variables are not modelled. Their results are inputs. `run_command_async`, `action.rs`, `custom_module.rs`, `clock.rs` and the config loaders are not part of this model.
- Floating-point code is not modelled: `calculate_time_remaining`, `power_now`, and the PipeWire `f32` volume parse. `Audio.PipeWireInfo` takes the scaled volume as an input.
- The configuration structs in `src/config/` (serde derives and literal defaults) are not part of this model.
- Dead code is not modelled: `src/modules/tray.rs`, `src/modules/mpris_module.rs`, and the old top-level binary.
- Base.LowerAscii: lowercases ASCII only. Rust's `to_lowercase` is Unicode-aware, and this matters for `guess_icon_from_name` only on non-ASCII names.
- Strings are sequences of characters. UTF-8 byte offsets and lossy decoding are not modelled.
- ActiveWindow.HyprlandWindow: `hyprctl`'s output is already text, so the `None` for output that is not valid UTF-8 (src/modules/active_window.rs:326) is not modelled.
- Workspaces.Complete: the completion's `sort_unstable` (src/modules/hyprland_workspaces.rs:216) is modelled by the same stable sort as the fetch's `sort_by_key` (line 120). Since workspaces compare by id only, the contract states only what any sort guarantees there: sorted and a permutation.
- Network.FormatStringFillsPlaceholders: values containing `{` are excluded. In the code such a value can be rewritten again by a later replacement, and the lemma does not state what is shown then. Battery.ButtonTextFillsPlaceholders, Mpris.PreDisplayFillsPlaceholders, Mpris.TooltipFillsPlaceholders and Workspaces.LabelFillsPlaceholders exclude such values for the same reason.
- TrayBridge.RegisteredItemReachesHost: covers senders without `/` and services that are object paths or have no `/`. Services with a `/` elsewhere are keyed differently by the host, which `TrayBridge.SlashedServiceKeyedApart` states.
- TrayWatcher.RegisteredItems: the order of the list is the map's iteration order, which is not specified. The contract states membership and multiplicity only.
- SetWatcher.RegisteredItems: as above, for the set's iteration order.
- Network.DbmToPercent: an overflowing `(dbm + 100) * 2` panics in a debug build and wraps in a release build. The model wraps (release build), and the closed form is stated only when nothing wraps.
- Audio.ScrollAction: a scroll step of `i32::MIN` is excluded, because negating it overflows in the source.
- Layout.Children: a nested box or revealer is returned with its configuration. Building its own children recursively is left to the caller. A box listing itself recurses without end in the source.
- Mpris.PlayerTick: the player-finder retry loop, player switching and the event stream are not modelled. One round is one call.

## Findings

| source | as written | input that shows it | evidently intended | confidence | as-written member | corrected member |
|---|---|---|---|---|---|---|
| src/modules/active_window.rs:283 | The Sway subscribe header declares a 14-byte payload (`\x0e`). | The payload `["window"]` is 10 bytes, so the compositor waits for 4 more bytes. | The declared length is the payload length, 10. | high; not executed | ActiveWindow.SubscribeAsWrittenOverstatesLength | ActiveWindow.SubscribeMessage |
| src/modules/audio.rs:353-357 | `pactl` gets `format!("{}%", delta)` for any delta ≤ 0. | `scroll_step = 0` sends `0%`, which sets the sink to 0%. | Every step is relative: a zero step changes nothing, as with `wpctl`. | medium; not executed | Audio.PulseZeroStepSilences | Audio.PulseArgMeansDelta |
| src/modules/hyprland_workspaces.rs:159-167 | A rebuild labels icons against the previous active id. | Going from `[1]` (1 active) to `[1, 2]` (2 active) gives 1 the active icon and 2 the normal one. | Labels use the active id being applied, as the class update does. | medium; not executed | Workspaces.StaleActiveIconExample | Workspaces.RebuildLabelsActiveIcon |
| src/modules/network.rs:215-218 | `.output().ok()?` returns early when nmcli cannot be started. | With nmcli not installed and `iw` reporting `SSID:x`, no wifi is reported. | The `iw` fallback, commented as for when nmcli is not available, runs in that case. | medium; not executed | Network.MissingNmcliSkipsIw | Network.WifiInfo |
