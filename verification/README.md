# Web console helpers: interface aliases, network widget, enclosure colouring, backup credentials

This project models, in Dafny, the self-contained rules inside four files of the
storage appliance's Angular web console, and proves what those rules promise.

- **Network interface form** (`InterfacesForm`, `interfaces_form.dfy`). Aliases
  are edited as `address/netmask` text and sent to the backend as
  `{address, netmask}` records. The model covers:
  - `clean`, which splits the text with `split('/')` and `parseInt(…, 10)`;
  - `preHandler`, which keeps only the `{address}` of aliases with a truthy netmask;
  - `resourceTransformIncomingRestData`, which rewrites each address in place
    to `address + '/' + netmask`;
  - the field groups that `setType` disables and hides;
  - the alias counter behind the "add alias" and "remove alias" actions;
  - the edit-mode counts that `preInit` sets.

  The main theorem is the round trip of an edit page: when no loaded
  address contains '/', rewriting the addresses, filtering them through
  `preHandler` and cleaning the resulting rows gives back exactly the loaded
  aliases whose netmask is not 0. An alias with netmask 0 is lost.
- **Network widget** (`WidgetNetwork`, `widget_network.dfy`). The model covers:
  - the per-interface sent and received buffers, capped at 30 samples;
  - the chart built from those buffers;
  - the 12-column tile spans;
  - the IP-address and link-state captions;
  - the table of per-interface entries, written by `updateMapInfo`;
  - the traffic-event handler, which updates an entry and lights a traffic
    arrow when a byte count grows by more than 1024.
- **Enclosure service** (`Enclosure`, `enclosure_service.dfy`). The model covers:
  - which chassis class a model string selects;
  - the defaults filled into an `EnclosureCreate` request;
  - the `ChangeDriveTrayColor` events, and the tray `enabled` flags, that the
    service uses to colour a chassis view by pool or by disk health;
  - disk lookup by slot;
  - the list of unhealthy pools.
- **Backup credentials page** (`BackupCredentials`, `backup_credentials.dfy`).
  The model covers:
  - the three lists the two credential queries are sorted into;
  - the fixed card table;
  - the form that each card's "add" action opens.

Shared modules:
- `JsText` (`js_text.dfy`) models the JavaScript conversions these files rely
  on: integer `toString`, `parseInt(s, 10)`, `Number(s)`, `split` on one
  character and `replace(/c/g, d)`. Numbers are integers, and NaN is `None`.
- `Sequences` (`sequences.dfy`) holds the "loop, test, push" filter (`FilterMap`)
  with its characterisation by kept positions, and a fold that runs a step
  over a list.
- `Optional` (`option.dfy`) is the option type.

The model follows the code where the code does something other than the
obvious intent, and states it as written:
- The third loop of `setType` runs over the length of the VLAN list and indexes
  the bridge list. It therefore makes two `setDisabled` calls with an undefined
  name.
- `preInit` in edit mode writes its zero under the key `ipv4_aliases`, so the
  alias counter itself keeps its value.
- `setDiskHealthState` enables the *last* tray whose id matches the slot.
- The slot-fault check reads `.fault` off an array, so it never fires. A FAULT
  disk therefore sends red twice: once from its status and once as "failed".
- Both chart columns are negative: the received bytes and the sent bytes.

Module-level service methods take the chassis view as a parameter; the
view's trays and its event log are the state they change. Backend answers,
`Date.now()` and the unit-converted byte rates are parameters. Calls into
other services are returned as data:
- the `setDisabled` calls;
- the choices requests;
- the traffic-arrow icons;
- the form component to open.

## Model

| member | source | states |
|---|---|---|
| JsText.IntToString | src/app/pages/network/interfaces/interfaces-form/interfaces-form.component.ts:367 | the text of an integer is non-empty and ends in a digit; it starts with '-' exactly when the integer is negative, and otherwise consists of digits only |
| JsText.DigitsValueOfNatToDigits | src/app/pages/network/interfaces/interfaces-form/interfaces-form.component.ts:367 | reading back the decimal digits written for n gives n |
| JsText.TrimStartDropsLeadingSpace | src/app/pages/network/interfaces/interfaces-form/interfaces-form.component.ts:346 | parseInt's white-space skip removes a run of leading white space and nothing else; what remains is a suffix that does not start with white space |
| JsText.TrimEndDropsTrailingSpace | src/app/core/services/enclosure.service.ts:425 | Number()'s trailing trim removes a run of trailing white space and nothing else |
| JsText.LeadingDigitsIsLongestDigitPrefix | src/app/pages/network/interfaces/interfaces-form/interfaces-form.component.ts:346 | the digits parseInt reads are the longest prefix made of digits: a prefix, all digits, and followed by a non-digit or the end |
| JsText.ParseInt | src/app/pages/network/interfaces/interfaces-form/interfaces-form.component.ts:346 | `parseInt(…, 10)`: NaN (`None`) unless the trimmed text starts with digits, optionally after a sign; characterised by `ParseIntOfDigits`, `ParseIntOfNegatedDigits` and `ParseIntOfIntToString` |
| JsText.ToNumber | src/app/core/services/enclosure.service.ts:425 | `Number()`: 0 for blank text, the integer the whole trimmed text spells after an optional sign, NaN (`None`) otherwise; characterised by `ToNumberOfDigits`, `ToNumberOfNegatedDigits` and `ToNumberOfIntToString` |
| JsText.ParseIntOfDigits | src/app/pages/network/interfaces/interfaces-form/interfaces-form.component.ts:346 | parseInt reads a non-empty run of digits as its decimal value |
| JsText.ParseIntOfNegatedDigits | src/app/pages/network/interfaces/interfaces-form/interfaces-form.component.ts:346 | parseInt reads '-' followed by digits as the negated value |
| JsText.ToNumberOfDigits | src/app/core/services/enclosure.service.ts:425 | Number() reads a non-empty run of digits as its decimal value |
| JsText.ToNumberOfNegatedDigits | src/app/core/services/enclosure.service.ts:425 | Number() reads '-' followed by digits as the negated value |
| JsText.ParseIntOfIntToString | src/app/pages/network/interfaces/interfaces-form/interfaces-form.component.ts:344-346 | parseInt reads back every integer that toString writes |
| JsText.ToNumberOfIntToString | src/app/core/services/enclosure.service.ts:425 | Number() reads back every integer that toString writes |
| JsText.IndexOf | src/app/pages/network/interfaces/interfaces-form/interfaces-form.component.ts:344 | the position of the first occurrence of the separator: none occurs before it, and it is the separator unless it is the end |
| JsText.Split | src/app/pages/network/interfaces/interfaces-form/interfaces-form.component.ts:344 | split always yields at least one piece |
| JsText.SplitFirst | src/app/pages/network/interfaces/interfaces-form/interfaces-form.component.ts:344 | the first piece is the text before the first separator, and there is more than one piece exactly when the text holds the separator |
| JsText.SplitPiecesHoldNoSeparator | src/app/pages/network/interfaces/interfaces-form/interfaces-form.component.ts:344 | no piece of a split holds the separator |
| JsText.JoinSplit | src/app/pages/network/interfaces/interfaces-form/interfaces-form.component.ts:344 | joining the pieces of a split with the separator gives the text back |
| JsText.SplitSecond | src/app/pages/network/interfaces/interfaces-form/interfaces-form.component.ts:344-346 | when the text holds the separator, the second piece is the text between the first separator and the next one, or the end |
| JsText.SplitOfPair | src/app/pages/network/interfaces/interfaces-form/interfaces-form.component.ts:344-346 | two separator-free texts joined by the separator split into exactly those two pieces |
| JsText.ReplaceAll | src/app/core/components/widgets/widget-network/widget-network.component.ts:299 | the replaced text is equally long, and each position holds the new character where the old one stood and is unchanged elsewhere |
| InterfacesForm.ParseAlias | src/app/pages/network/interfaces/interfaces-form/interfaces-form.component.ts:344-346 | the address is the text before the first '/'; without a '/' the netmask is NaN; otherwise it is parseInt of the text between the first '/' and the next one |
| InterfacesForm.Cleaned | src/app/pages/network/interfaces/interfaces-form/interfaces-form.component.ts:339-351 | what `clean` returns, as a filter of the live rows and parse; characterised by `CleanKeepsLiveRowsInOrder` |
| InterfacesForm.Clean | src/app/pages/network/interfaces/interfaces-form/interfaces-form.component.ts:339-351 | the index loop of `clean` yields the filter-and-parse of the rows (`Cleaned`) |
| InterfacesForm.CleanKeepsLiveRowsInOrder | src/app/pages/network/interfaces/interfaces-form/interfaces-form.component.ts:339-348 | `clean` keeps, in order, exactly the rows that are neither ticked for deletion nor empty; its k-th alias is the parse of the k-th kept row |
| InterfacesForm.PreHandler | src/app/pages/network/interfaces/interfaces-form/interfaces-form.component.ts:353-362 | the index loop of `preHandler` yields `PreHandled` of its input |
| InterfacesForm.PreHandled | src/app/pages/network/interfaces/interfaces-form/interfaces-form.component.ts:353-362 | what `preHandler` returns; characterised by `PreHandlerKeepsMaskedAddresses` |
| InterfacesForm.PreHandlerKeepsMaskedAddresses | src/app/pages/network/interfaces/interfaces-form/interfaces-form.component.ts:353-362 | `preHandler` returns, in order, `{address}` for exactly the aliases whose netmask is non-zero, and never more entries than it was given |
| InterfacesForm.PrefixText | src/app/pages/network/interfaces/interfaces-form/interfaces-form.component.ts:367 | the text `address + '/' + netmask` put in an alias box; characterised by `PrefixTextRoundTrip` |
| InterfacesForm.PrefixTextRoundTrip | src/app/pages/network/interfaces/interfaces-form/interfaces-form.component.ts:364-369 | an alias written as `address/netmask`, with no '/' in the address, is a live row that parses back to the same address and netmask |
| InterfacesForm.EditRoundTrip | src/app/pages/network/interfaces/interfaces-form/interfaces-form.component.ts:339-351 | when no loaded address contains '/', cleaning rows that hold each alias's prefix text, delete box clear, returns every alias, with its address and netmask, in the original order |
| InterfacesForm.EditPageRoundTrip | src/app/pages/network/interfaces/interfaces-form/interfaces-form.component.ts:339-369 | when no loaded address contains '/', the addresses rewritten by `resourceTransformIncomingRestData`, filtered by `preHandler`, put in rows and cleaned give back, in order, exactly the loaded aliases with a non-zero netmask, each with its address and netmask |
| InterfacesForm.Transformed | src/app/pages/network/interfaces/interfaces-form/interfaces-form.component.ts:366-368 | the alias list after the in-place rewrite: same length, each address replaced by its prefix text, the netmask kept; `WritePrefixTexts` ends in this state |
| InterfacesForm.RowsOf | src/app/pages/network/interfaces/interfaces-form/interfaces-form.component.ts:353-362 | one form row per `{address}` that `preHandler` returns, delete box clear, in order |
| InterfacesForm.SetTypeCalls | src/app/pages/network/interfaces/interfaces-form/interfaces-form.component.ts:241-256 | 8 calls, each with hide equal to disable: the VLAN fields are disabled iff the type is not VLAN; the LAGG fields iff it is not LINK_AGGREGATION; `bridge_members` and two undefined names iff it is not BRIDGE; no failover field is ever named |
| InterfacesForm.SetType | src/app/pages/network/interfaces/interfaces-form/interfaces-form.component.ts:241-256 | the three loops make exactly the calls of `SetTypeCalls` |
| InterfacesForm.WritePrefixTexts | src/app/pages/network/interfaces/interfaces-form/interfaces-form.component.ts:366-368 | every alias's address becomes `address/netmask` in place; the netmask and every other alias field stay |
| InterfacesForm.TransformIncomingRestData | src/app/pages/network/interfaces/interfaces-form/interfaces-form.component.ts:364-391 | every alias's address becomes `address/netmask` in place, with nothing else changed; then come the `setType` calls, plus a disable of the VLAN parent for a VLAN, and the choices request for a LAGG or a bridge |
| InterfacesForm.CustActionVisible | src/app/pages/network/interfaces/interfaces-form/interfaces-form.component.ts:234-239 | every action but "remove alias" is visible; "remove alias" is visible iff the count exceeds the default |
| InterfacesForm.CountAfterAction | src/app/pages/network/interfaces/interfaces-form/interfaces-form.component.ts:205-223 | "add alias" raises the counter by one, "remove alias" lowers it by one, any other action leaves it; `AddAlias` and `RemoveAlias` are stated through it |
| InterfacesForm.CountAfterClicks | src/app/pages/network/interfaces/interfaces-form/interfaces-form.component.ts:205-239 | the counter after a run of clicks, where a hidden action cannot be clicked; bounded by `ClicksKeepCountAtLeastDefault` |
| InterfacesForm.ClicksKeepCountAtLeastDefault | src/app/pages/network/interfaces/interfaces-form/interfaces-form.component.ts:205-239 | when clicks fire only on visible actions, the counter never drops below the default, and it ends at most `|clicks|` above where it started |
| InterfacesForm.InterfacesFormState.constructor | src/app/pages/network/interfaces/interfaces-form/interfaces-form.component.ts:196-198 | a new form starts with alias count 1, default 1, and no confirmation on save |
| InterfacesForm.InterfacesFormState.IsCustActionVisible | src/app/pages/network/interfaces/interfaces-form/interfaces-form.component.ts:234-239 | an action is hidden iff it is "remove alias" and the alias count is at most the default |
| InterfacesForm.InterfacesFormState.AddAlias | src/app/pages/network/interfaces/interfaces-form/interfaces-form.component.ts:205-214 | the alias count rises by exactly one, and the new group goes in at the new count |
| InterfacesForm.InterfacesFormState.RemoveAlias | src/app/pages/network/interfaces/interfaces-form/interfaces-form.component.ts:215-223 | the alias count drops by exactly one, and the group at the new count is removed |
| InterfacesForm.InterfacesFormState.PreInit | src/app/pages/network/interfaces/interfaces-form/interfaces-form.component.ts:258-274 | without a pk, only the type box kind is set (to select); with one, confirmation is switched on, the default count and the aliases field's initial count become 0, and the alias count keeps its value |
| WidgetNetwork.Window | src/app/core/components/widgets/widget-network/widget-network.component.ts:329-337 | the newest 30 samples of a history, never more than 30 |
| WidgetNetwork.Slide | src/app/core/components/widgets/widget-network/widget-network.component.ts:332-337 | one push and prune of a buffer; bounded by `SlideIsBounded` and tied to `Window` by `SlideIsWindow` |
| WidgetNetwork.SlideIsBounded | src/app/core/components/widgets/widget-network/widget-network.component.ts:332-337 | after push and prune, the buffer holds 1 to 30 samples with the new one last; a buffer under the cap keeps all earlier samples, and a full one loses exactly its oldest |
| WidgetNetwork.SlideIsWindow | src/app/core/components/widgets/widget-network/widget-network.component.ts:332-337 | pushing onto the window of a history gives the window of the longer history |
| WidgetNetwork.SlideAllIsWindow | src/app/core/components/widgets/widget-network/widget-network.component.ts:332-337 | after any run of updates, the buffer is the newest 30 samples of everything pushed |
| WidgetNetwork.ChartOf | src/app/core/components/widgets/widget-network/widget-network.component.ts:339-349 | the chart starts at the first buffered timestamp and ends at the last; its legend is `[name (in), name (out)]`; it has one `[-received.y, sent.y]` column per buffered sample |
| WidgetNetwork.ColSpan | src/app/core/components/widgets/widget-network/widget-network.component.ts:195-211 | every span is positive and divides 12 |
| WidgetNetwork.ColSpansFillRow | src/app/core/components/widgets/widget-network/widget-network.component.ts:195-211 | with 4 or 5 interfaces the spans sum to exactly 12; with up to 2 they fit in 12; from 6 on every span is 2 |
| WidgetNetwork.IpAddress | src/app/core/components/widgets/widget-network/widget-network.component.ts:279-295 | the caption of `getIpAddress`; characterised by `IpAddressIsDashWithoutInet` and `IpAddressShowsFirstInet` |
| WidgetNetwork.IpAddressIsDashWithoutInet | src/app/core/components/widgets/widget-network/widget-network.component.ts:279-295 | the caption is the dash iff there are no aliases, or none of them is INET/INET6 |
| WidgetNetwork.IpAddressShowsFirstInet | src/app/core/components/widgets/widget-network/widget-network.component.ts:279-295 | otherwise the caption is the first INET/INET6 alias as `address/netmask`, followed by ` (+k)` when k = matches − 1 is positive |
| WidgetNetwork.InetAliasesStartAtFirstInet | src/app/core/components/widgets/widget-network/widget-network.component.ts:281-282 | the filtered addresses are as many as the matching positions, and the first is the first matching alias of the list |
| WidgetNetwork.LinkStateCaption | src/app/core/components/widgets/widget-network/widget-network.component.ts:297-300 | empty without aliases; otherwise the link state with each '_' turned into a space and every other character kept, at the same length |
| WidgetNetwork.ArrowThreshold | src/app/core/components/widgets/widget-network/widget-network.component.ts:181-189 | the arrow lights iff the new count exceeds the stored one by more than 1024; the stored count then becomes the new count, and otherwise stays |
| WidgetNetwork.LastAfterIsMonotone | src/app/core/components/widgets/widget-network/widget-network.component.ts:181-189 | over any run of samples the stored count never decreases, and it ends at its start or at one of the samples |
| WidgetNetwork.TrafficNicName | src/app/core/components/widgets/widget-network/widget-network.component.ts:169-171 | an interface name exists iff the event name starts with `NetTraffic_`, and the name is the rest of the event name |
| WidgetNetwork.TrafficNicNameOfEvent | src/app/core/components/widgets/widget-network/widget-network.component.ts:169-171 | the event of an interface is recognised as that interface's |
| WidgetNetwork.InitialInfo | src/app/core/components/widgets/widget-network/widget-network.component.ts:213-232 | a fresh entry has empty buffers, no chart and zero stored counts |
| WidgetNetwork.MapInfo | src/app/core/components/widgets/widget-network/widget-network.component.ts:213-232 | `updateMapInfo` keeps every existing key and adds one for every interface shown |
| WidgetNetwork.MapInfoAddsOnlyShownNames | src/app/core/components/widgets/widget-network/widget-network.component.ts:213-232 | after `updateMapInfo` the keys are exactly the old keys plus the names of the interfaces shown |
| WidgetNetwork.MapInfoFreshEntry | src/app/core/components/widgets/widget-network/widget-network.component.ts:213-232 | an interface's entry is the fresh entry of the last interface of that name |
| WidgetNetwork.MapInfoKeepsOthers | src/app/core/components/widgets/widget-network/widget-network.component.ts:213-232 | an entry whose name no interface carries is left as it was |
| WidgetNetwork.UpNics | src/app/core/components/widgets/widget-network/widget-network.component.ts:159 | the interfaces shown after the view is set up; characterised by `UpNicsAreTheUpOnes` |
| WidgetNetwork.UpNicsAreTheUpOnes | src/app/core/components/widgets/widget-network/widget-network.component.ts:159 | the interfaces shown are, in order, exactly those whose link state is up |
| WidgetNetwork.NetworkWidget.constructor | src/app/core/components/widgets/widget-network/widget-network.component.ts:67-83 | a new widget shows no interfaces and has no entries |
| WidgetNetwork.NetworkWidget.UpdateData | src/app/core/components/widgets/widget-network/widget-network.component.ts:328-370 | both buffers of the interface slide, stamped at the same timestamp, with nothing else changed; the buffers stay paired and within 30; the chart is `ChartOf` the new buffers, ends at the timestamp, and its last column is the new sample |
| WidgetNetwork.NetworkWidget.OnStatsEvent | src/app/core/components/widgets/widget-network/widget-network.component.ts:168-192 | an event not for a known interface changes nothing; otherwise only that entry changes: its buffers slide, its chart and rate captions are set, each stored count follows `ArrowThreshold`, and the arrows lit are returned |
| WidgetNetwork.NetworkWidget.UpdateMapInfo | src/app/core/components/widgets/widget-network/widget-network.component.ts:213-232 | the entry table becomes `MapInfo` of the old table and the interfaces shown |
| WidgetNetwork.NetworkWidget.AfterViewInit | src/app/core/components/widgets/widget-network/widget-network.component.ts:158-162 | the interfaces shown are the ones whose link is up, and the entry table is rebuilt for them |
| Enclosure.CreateChassis | src/app/core/services/enclosure.service.ts:202-252 | a chassis exists iff the model is one of the 16 listed strings; 'X Series' and 'ES12' give ES12; 'Z Series', 'TRUENAS-Z20-HA-D' and 'E16' give E16; R20 and R50 get rear bays; M Series gets them iff the rear index is truthy |
| Enclosure.CreateChassisOfModelName | src/app/core/services/enclosure.service.ts:202-252 | every chassis class is reached from its own model name, so no two classes share one |
| Enclosure.WithCreateDefaults | src/app/core/services/enclosure.service.ts:94-97 | background is true afterwards whatever it was; a missing or empty view becomes 'front', and a given one is kept; interactive is true iff it was true; nothing else changes |
| Enclosure.WithCreateDefaultsIsIdempotent | src/app/core/services/enclosure.service.ts:94-97 | applying the defaults twice is applying them once |
| Enclosure.ChassisView.constructor | src/app/core/services/enclosure.service.ts:388-401 | the chassis view the service reads: it starts with the given drive trays and slot range and an empty event log |
| Enclosure.DisabledEvents | src/app/core/services/enclosure.service.ts:430-436 | one 'none' event per tray, addressed by tray id, in tray order |
| Enclosure.SetDisksDisabled | src/app/core/services/enclosure.service.ts:430-436 | the view's event log grows by exactly `DisabledEvents` of its trays |
| Enclosure.PoolEventsColourDisksInRange | src/app/core/services/enclosure.service.ts:388-401 | in disk order, one event per disk whose slot lies in the range and none for the others; each addresses the disk's slot, and is grey iff the disk has no vdev and otherwise the accent colour of its pool index |
| Enclosure.PoolEvents | src/app/core/services/enclosure.service.ts:388-401 | the pool colour events for the disks in the slot range; characterised by `PoolEventsColourDisksInRange` |
| Enclosure.SetDisksPoolState | src/app/core/services/enclosure.service.ts:388-401 | the log grows by the clearing events, then the pool events |
| Enclosure.StatusColorsMarkFaultRed | src/app/core/services/enclosure.service.ts:464-495 | no status sends no colour; red is sent iff the status is FAULT, and then it is also last; only a FAULT disk gets two events; only green, red, grey and yellow occur |
| Enclosure.StatusColors | src/app/core/services/enclosure.service.ts:464-495 | the colours sent for a disk status; characterised by `StatusColorsMarkFaultRed` |
| Enclosure.LastTrayWithId | src/app/core/services/enclosure.service.ts:451-458 | the index the filter callback leaves behind, always a tray position; `LastTrayWithIdIsLastMatch` shows it is the last tray with the id |
| Enclosure.LastTrayWithIdIsLastMatch | src/app/core/services/enclosure.service.ts:451-458 | the filter callback leaves `index` on a tray iff some tray has the id, and then on the last such tray |
| Enclosure.HealthStateTouchesOnlyItsTray | src/app/core/services/enclosure.service.ts:450-496 | with no tray matching the slot, nothing happens; otherwise the last matching tray is enabled iff the slot is non-zero, the status colours are sent, and the trays are the old trays with only that one updated (an earlier tray with the same id is untouched) |
| Enclosure.HealthState | src/app/core/services/enclosure.service.ts:450-496 | the trays and events after `setDiskHealthState`; characterised by `HealthStateTouchesOnlyItsTray` |
| Enclosure.SetDiskHealthState | src/app/core/services/enclosure.service.ts:450-496 | the trays and the event log change exactly as `HealthState` says |
| Enclosure.HealthAllKeepsOtherTrays | src/app/core/services/enclosure.service.ts:438-448 | colouring every disk keeps the trays and their ids, and leaves alone every tray whose id is no disk's slot |
| Enclosure.HealthAll | src/app/core/services/enclosure.service.ts:438-448 | `HealthState` for each profile disk in turn; bounded by `HealthAllKeepsOtherTrays` |
| Enclosure.SetDisksHealthState | src/app/core/services/enclosure.service.ts:438-448 | a given disk is coloured alone; otherwise every disk of the profile is coloured in turn (`HealthAll`) |
| Enclosure.SetEveryDiskHealthState | src/app/core/services/enclosure.service.ts:445-447 | the loop over the profile's disks reaches `HealthAll` |
| Enclosure.FirstDiskInSlot | src/app/core/services/enclosure.service.ts:559-566 | the position of the first disk in the slot: no earlier disk sits there |
| Enclosure.FindDiskBySlotNumber | src/app/core/services/enclosure.service.ts:559-566 | a disk is found iff the number is not NaN and some disk of the profile sits in that slot, and the disk found is a profile disk in that slot |
| Enclosure.EnabledTraysFollowDisks | src/app/core/services/enclosure.service.ts:421-428 | the trays keep their ids, and each is enabled iff its id reads as a number and a disk sits in that slot |
| Enclosure.TrayEnabled | src/app/core/services/enclosure.service.ts:424-426 | one tray after the `forEach` body; stated in `EnabledTraysFollowDisks` |
| Enclosure.EnabledTrays | src/app/core/services/enclosure.service.ts:421-428 | the trays after `setDisksEnabledState`; characterised by `EnabledTraysFollowDisks` |
| Enclosure.SetDisksEnabledState | src/app/core/services/enclosure.service.ts:421-428 | the trays become `EnabledTrays` of the old trays |
| Enclosure.SetCurrentView | src/app/core/services/enclosure.service.ts:354-386 | show (or 'front' when empty) 'pools' clears and then pool-colours; 'status' clears and then health-colours every disk; any other value changes nothing |
| Enclosure.SickPoolsAreExactlyUnhealthyOnes | src/app/core/services/enclosure.service.ts:498-508 | the result is, in pool order, exactly the unhealthy pools whose position equals the profile's key for their name |
| Enclosure.SickPools | src/app/core/services/enclosure.service.ts:498-508 | what `getUnhealthyPools` returns; characterised by `SickPoolsAreExactlyUnhealthyOnes` |
| Enclosure.GetUnhealthyPools | src/app/core/services/enclosure.service.ts:498-508 | the loop returns `SickPools` |
| BackupCredentials.OfKindKeepsExactlyThatKind | src/app/pages/credentials/backup-credentials/backup-credentials.component.ts:48-55 | a type's list holds, in query order, exactly the credentials of that type |
| BackupCredentials.OfKind | src/app/pages/credentials/backup-credentials/backup-credentials.component.ts:48-55 | the keychain credentials sorted into one list by type; characterised by `OfKindKeepsExactlyThatKind` and `OfKindHasThatKind` |
| BackupCredentials.KeychainSplitIsPartition | src/app/pages/credentials/backup-credentials/backup-credentials.component.ts:48-55 | no credential lands in both SSH lists; together they hold no more than the query returned, and all of it when every credential is of an SSH type |
| BackupCredentials.OfKindHasThatKind | src/app/pages/credentials/backup-credentials/backup-credentials.component.ts:48-55 | everything in a type's list is of that type and came from the query |
| BackupCredentials.SplitCount | src/app/pages/credentials/backup-credentials/backup-credentials.component.ts:48-55 | the two SSH lists and the dropped credentials account for every keychain credential |
| BackupCredentials.Others | src/app/pages/credentials/backup-credentials/backup-credentials.component.ts:48-55 | what `getCreds` drops is of neither SSH type |
| BackupCredentials.AddComponentFor | src/app/pages/credentials/backup-credentials/backup-credentials.component.ts:71-82 | a form is chosen iff the name is one of the three card names |
| BackupCredentials.CardsAreComplete | src/app/pages/credentials/backup-credentials/backup-credentials.component.ts:56-66 | three cards with distinct names and lists; the flex values sum to 100; the lists are all three; each card's "add" opens the form of its own list |
| BackupCredentials.BackupCredentialsPage.constructor | src/app/pages/credentials/backup-credentials/backup-credentials.component.ts:19-22 | the page starts with three empty lists and no cards |
| BackupCredentials.BackupCredentialsPage.GetCreds | src/app/pages/credentials/backup-credentials/backup-credentials.component.ts:43-69 | the cloud credentials are appended to the cloud list, and the keychain credentials to the SSH lists by type, in order; the lists are only appended to; the card table is installed, and each card shows the page list of its own kind |
| BackupCredentials.BackupCredentialsPage.DoAdd | src/app/pages/credentials/backup-credentials/backup-credentials.component.ts:71-85 | the form chosen is `AddComponentFor` the name, and a chosen form belongs to a card of that name |

## Left out

**Rendering, services and framework**
- Rendering: the pixi.js scene graph (`enclosureInit`, extraction, chassis opacity, container alpha) and all DOM work. The view is reduced to its trays, its slot range and its event log.
- Services and framework: the event bus, the backend calls, the table and modal services and `insertFormArrayGroup`/`removeFormArrayGroup`. Their inputs are parameters, and the calls made on them are returned as data.
- The option lists filled from the network-service answers: only the request is modelled.

**Numbers and text**
- Floating point: byte rates reach the model already converted by `WidgetUtils.convert`, which is not part of this model. The y-axis tick formatter and `updateGridInfo` are left out, and all byte counts are integers.
- `Date.now()` is a parameter.
- JsText.IntToString: writes plain decimal digits for every integer. JavaScript's `toString` switches to exponent form from 1e21 on, which no netmask reaches.
- `Number(s)`: only its integer forms are modelled (signed decimal digits with surrounding white space, and the empty string as 0). The decimal point, exponents, hexadecimal, `Infinity` and -0 are left out, so such strings read as NaN here.
- `parseInt` with digits beyond the double precision range: the model keeps the exact value.
- Enum strings: `LinkState.Up` and the INET/INET6 alias types come from an enum file that is not part of this model. They are taken as "LINK_STATE_UP", "INET" and "INET6".
- Theme colours are named (`Green`, `Red`, `Yellow`, `Accent(i)`) rather than given as values.

**JavaScript semantics**
- `nicName in this.nicInfoMap` is map membership. Keys inherited from the object prototype are not modelled.
- A missing disk status is the empty string. A `null` disk passed to `setDisksHealthState`, which would throw, is not modelled.
- `setDiskHealthState` looks up the slot's elements (enclosure.service.ts:486-487). That lookup feeds only the fault check that never fires, so it is not modelled. Its failure on a missing enclosure is not modelled either.
- `setDisksDisabled` reads `profile.disks[index]` and never uses it, so it is left out.
- `setCurrentView` looks the profile up by the request's enclosure index. Here the profile is a parameter.

**Page and widget details**
- `getCreds`: the two nested query callbacks are one method taking both answers.
- InterfacesForm.EditPageRoundTrip: how the form framework turns `preHandler`'s output into rows is not part of this model. `RowsOf` takes it to be one row per returned `{address}`, in order, with the delete box clear.
- The cards hold the lists by reference. The model names the list (`CardSource`), and `Rows` reads the list a card shows; `GetCreds` states that each card then shows its page list. Appends made after `getCreds` are not followed.
- `doAdd`: opening the modal with the chosen component, and the logging, are left out. `doDelete` only logs.
- `getChartBodyClassess`, `chartDataError` and all commented-out code (`getDiskFailures`, `optimizeChassisOpacity`, the 'details' view) are left out.
