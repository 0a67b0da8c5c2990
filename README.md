# Museum AR scavenger hunt: navigation and unlock core

This project models in Dafny the progress and navigation core of a museum
scavenger-hunt web app (`app.js`). Visitors scan QR codes at four exhibits.
Each scan unlocks an exhibit's 3D model or its sound. The app tracks what
has been collected and guides the visitor along a route.

The model covers:

- **Catalog** (`catalog.dfy`): the four exhibits and the lookup by id.
- **Ledger** (`ledger.dfy`): the unlock ledger, an append-only list of keys.
  A key is `<id>_model`, `<id>_sound`, or a bare `<id>` that stands for both
  channels. The module also holds the "is unlocked" rule and the debug bulk
  unlock.
- **QrProtocol** (`qr.dfy`): the QR unlock protocol.
  - `split(':')` is modelled as `Split`, with its inverse `Join`.
  - Texts are classified as `ar-collect:<type>:<id>`, `ar-feature:<id>` or
    unrecognized.
  - The id is then checked against the catalog.
  - The scan ends as a `ScanOutcome`: `UnrecognizedFormat`, `UnknownItem`,
    `AlreadyCollected` or `NewlyCollected(count)`.
- **Progress** (`progress.dfy`): the collection, route and home screens,
  written as functions of the catalog and the ledger.
  - The collection expands the catalog into eight items.
  - The route finds the first incomplete waypoint.
  - Percentages use `Math.round`.
- **Navigation** (`navigation.dfy`): the current-screen and back-stack state
  machine, stated as functions over a `Nav` value.
- **App** (`app.dfy`): the page's mutable module-level state as the class
  `AppState`. Its methods are the event handlers. Navigation, the scan
  handler, the bulk unlock, reload and the screen updates are proved against
  the functions above; the scanner, dialog, model and audio handlers are
  specified directly on the fields:
  - `navigateTo` and `goBack`;
  - the scan handler; dismissing the scan result; stopping and starting the
    scanner;
  - the debug `unlockAll` and `resetProgress`, each followed by a page reload;
  - `switchModel`, `playSound` and the audio-ended callback;
  - the read-only screen presenters.
- **Scenarios** (`scenarios.dfy`): concrete runs, such as scanning
  `ar-collect:model:bell_47g` on an empty ledger.

Modelling choices:

- **Screens.** Screen ids are strings. The page's screen elements are the
  constant set `AppState.screens`. The page is assumed to have a `home`
  screen.
- **Scanner.** The QR library's scanner instance is a three-state value:
  `Stopped` (no instance), `Running` or `Paused`.
- **Page markup.** The initial visibility (only `home` shown, menu visible)
  comes from the page's HTML, which is not part of this model; the
  constructor and `Reload` assume it.
- **Storage.** The local-storage entry is the field `saved`. `None` means
  the entry is absent, which reads as the empty list.
- **Invariants.** `AppState.Valid` states what holds between events:
  - the history starts at `home`, is never empty, and ends with the current
    screen;
  - only the current screen can be shown;
  - the scanner holds the camera only while the current screen is
    `scanner`;
  - the stored copy equals the in-memory ledger.

In these places the model follows the code where a reader might expect
otherwise:

- The unlock test in the scan handler is exact membership
  (`includes(unlockKey)`), not the "channel key or bare id" rule. A ledger
  holding the bare id `saab` but not `saab_model` still accepts
  `ar-collect:model:saab` as newly collected (`QrProtocol.ExactMembershipAfterLegacy`).
- Navigating to a screen with no element does not keep the current screen
  visible. All screens are hidden first, so none is shown afterwards
  (`shown == None`). The scanner is still stopped if the page was on
  `scanner`.
- The type field of `ar-collect:` is not validated. `ar-collect:xyz:saab`
  unlocks the key `saab_xyz`, which no collection card or waypoint counts
  (the home counter and the scan message, which show the ledger's length,
  do count it). `ar-collect:both:saab`
  unlocks the bare id, exactly like the legacy form
  (`QrProtocol.CollectBothIsLegacy`).
- Leaving the AR screen through `navigateTo` does not stop the AR session.
  Nothing in `app.js` calls `stopAR`.
- Loading the ledger does not tolerate corrupt storage: `JSON.parse` would
  throw. The model only covers a stored list or an absent entry.

## Model

| member | source | states |
|---|---|---|
| `Catalog.Find` | app.js:538-543 | the lookup finds a feature exactly when some catalog entry has that id, and what it returns is that entry |
| `Catalog.CatalogIdsDistinct` | app.js:7-60 | no two exhibits share an id |
| `Ledger.Insert` | app.js:553-555 | the key is appended only when it is not already exactly present; the old ledger is a prefix; the members are the old ones plus the key; no duplicates are introduced |
| `Ledger.ChannelKeysDistinct` | app.js:546-551 | `<id>_<kind>` keys of different kinds differ, and no channel key equals the bare id |
| `Ledger.ChannelKey` | app.js:550 | definition: the key `<id>_<kind>`, as also built at app.js:624, 635 and 710 (properties in `ChannelKeysDistinct`) |
| `Ledger.UnlockChannelIsolated` | app.js:631-642 | after unlocking one channel of an exhibit that channel is unlocked, and every other channel's status is unchanged |
| `Ledger.BareIdUnlocksEveryChannel` | app.js:631-642 | a bare id in the ledger unlocks every channel of its exhibit |
| `Ledger.Has` | app.js:631-642 | definition: a channel counts as unlocked when its channel key or the bare exhibit id is in the ledger (properties in `UnlockChannelIsolated`, `BareIdUnlocksEveryChannel`) |
| `Ledger.UnlockAllKeys` | app.js:794-801 | definition: per exhibit in order, insert the model key, then the sound key, each only if missing (properties in `UnlockAllKeysStep`, `UnlockAllKeysCovers`) |
| `Ledger.UnlockAllKeysCovers` | app.js:793-801 | bulk unlock only appends, adds only model/sound keys of catalog exhibits, leaves every channel key present, and preserves duplicate-freedom |
| `Ledger.UnlockAllKeysStep` | app.js:794-801 | handling one more exhibit adds its model key and then its sound key, each only if missing |
| `QrProtocol.Split` | app.js:527 | splitting always yields at least one field |
| `QrProtocol.JoinSplit` | app.js:527 | joining the split fields with ':' gives the text back, and no field holds a colon |
| `QrProtocol.SplitFieldsColonFree` | app.js:527 | no field of a split holds a colon |
| `QrProtocol.SplitJoin` | app.js:527 | splitting the join of colon-free fields gives the fields back |
| `QrProtocol.SplitColonFree` | app.js:527 | a colon-free text is one field |
| `QrProtocol.SplitCons` | app.js:527 | a colon-free first field followed by ':' splits off as one field |
| `QrProtocol.SplitHead` | app.js:527-529 | the first field runs to the first colon; the later fields are the split of the rest |
| `QrProtocol.SplitFrontField` | app.js:527 | the first field of a split is the longest colon-free prefix of the text |
| `QrProtocol.SplitMore` | app.js:527 | a split has more than one field exactly when the text holds a colon |
| `QrProtocol.SplitRest` | app.js:527 | when there is a colon, the fields after the first are the split of the text after the first colon |
| `QrProtocol.FieldUnique` | app.js:527-529 | a text has one front field |
| `QrProtocol.PrefixSplit` | app.js:526-531 | a text that starts with a tag and a colon has the tag as field 0 |
| `QrProtocol.Parse` | app.js:526-536 | definition: the `ar-collect:` form reads fields 1 and 2 of the split, the `ar-feature:` form field 1, anything else is unrecognized (characterised by `ParseMeaning`) |
| `QrProtocol.UnlockKey` | app.js:546-551 | definition: the type `both` gives the bare id, any other type `<id>_<type>` (see `CollectBothIsLegacy`, `KeySpellings`) |
| `QrProtocol.ParseMeaning` | app.js:526-536 | only the `ar-collect:` and `ar-feature:` prefixes are recognized; the type is the field after the prefix; the id is the next field, undefined exactly when the text ends with the type; the legacy id is the field after the prefix |
| `QrProtocol.ParseCollectText` | app.js:526-529 | parsing `ar-collect:<kind>:<id>` gives back exactly that kind and id |
| `QrProtocol.CollectText` | app.js:18-19 | definition: the canonical code text `ar-collect:<type>:<id>` of the catalog's `qrModel`/`qrSound` entries (inverted by `ParseCollectText`) |
| `QrProtocol.LegacyText` | app.js:523 | definition: the legacy code text `ar-feature:<id>` (inverted by `ParseLegacyText`) |
| `QrProtocol.ParseLegacyText` | app.js:530-532 | parsing `ar-feature:<id>` gives back exactly that id |
| `QrProtocol.Resolve` | app.js:538-551 | a text resolves only to a catalog exhibit and a key that starts with its id; every rejection is an unrecognized format or an unknown item (what each parse resolves to is in `ResolveMeaning`) |
| `QrProtocol.ResolveMeaning` | app.js:526-551 | for every text: exactly the texts of neither form are rejected as unrecognized; a collect text with an id, or a legacy text, resolves exactly when its id is a catalog exhibit, to that exhibit and the key `UnlockKey(type, id)` (`both` for legacy); every other collect text is an unknown item |
| `QrProtocol.Scan` | app.js:519-569 | the ledger only grows, by at most one key; a resolved key absent from the ledger is appended and reported `NewlyCollected` with the new length, and this is the only way the ledger grows; `AlreadyCollected` exactly when the key is already present; a rejection reports its error and leaves the ledger as it is; no duplicates are introduced |
| `QrProtocol.ScanResolved` | app.js:553-569 | helper for `OnScanSuccess`: unfolds `Scan` on a resolved text (key appended and counted exactly when absent, otherwise already collected) |
| `QrProtocol.ScanRejected` | app.js:533-543 | helper for `OnScanSuccess`: unfolds `Scan` on a rejected text (error reported, ledger unchanged) |
| `QrProtocol.ScanTwice` | app.js:553-569 | a second scan of the same text never changes the ledger; it reports `AlreadyCollected` after an unlock or a repeat, and the same rejection after a rejection |
| `QrProtocol.ScanCollectCode` | app.js:526-562 | a canonical code of a catalog exhibit unlocks exactly `<id>_<type>`, or reports it already collected |
| `QrProtocol.ScanLegacyCode` | app.js:530-562 | a legacy code of a catalog exhibit unlocks the bare id, or reports it already collected |
| `QrProtocol.ScanUnrecognized` | app.js:533-536 | text with neither prefix is `UnrecognizedFormat` and the ledger is unchanged |
| `QrProtocol.ScanUnknownItem` | app.js:539-543 | a well-formed code whose id is not in the catalog is `UnknownItem` and the ledger is unchanged |
| `QrProtocol.CollectBothIsLegacy` | app.js:547-551 | `ar-collect:both:<id>` behaves exactly like `ar-feature:<id>` |
| `QrProtocol.ExactMembershipAfterLegacy` | app.js:553 | a canonical model code of an exhibit whose bare id is in the ledger, but whose model key is not, is still newly collected and appends the model key, although the model already shows as unlocked |
| `Progress.Expand` | app.js:619-644 | there are twice as many items as exhibits; item `i` is exhibit `i/2`, model at even `i` and sound at odd `i` |
| `Progress.Unlocked` | app.js:631-642 | definition: an item is unlocked when `Has` holds for its exhibit and channel |
| `Progress.CountUnlocked` | app.js:646-648 | the count is at most the number of items |
| `Progress.CollectionUnlocked` | app.js:646-648 | definition: `totalUnlocked`, the count of unlocked collection items over the whole catalog (properties in `RouteDoneIffCollectionFull`, `UnlockAllCompletes`, `EmptyLedgerProgress`) |
| `Progress.CountUnlockedExtremes` | app.js:646-648 | the count is full exactly when all items are unlocked and zero exactly when none is |
| `Progress.FirstIncomplete` | app.js:718-722 | the active waypoint is the least index that is not unlocked, and -1 exactly when all waypoints are complete |
| `Progress.RoundPercent` | app.js:649 | the percentage is at most 100 and is the nearest integer to 100·part/whole, with halves rounded up (its proof uses the unlisted arithmetic helpers `DivBounds`, `DivBelow` and `MulMono`) |
| `Progress.RoundPercentWhole` | app.js:649 | a full count shows 100 percent |
| `Progress.CountFlagged` | app.js:648 | counting the set flags counts no more than the cards |
| `Progress.CountFlaggedIsCountUnlocked` | app.js:631-648 | counting the cards' flags equals counting the unlocked items |
| `Progress.EmptyLedgerProgress` | app.js:646-652 | on an empty ledger the collection shows `0 / 8`, `0%`, and the route's active waypoint is the first |
| `Progress.RouteDoneIffCollectionFull` | app.js:709-722 | the route has no active waypoint exactly when all eight items are collected |
| `Progress.UnlockAllCompletes` | app.js:793-801 | after the bulk unlock the collection shows `8 / 8`, `100%`, and the route has no active waypoint |
| `Progress.UnlockAllCompletesFor` | app.js:793-801 | for any non-empty exhibit list, the bulk unlock makes the count full, the percentage 100 and the route complete |
| `Progress.UnlockAllUnlocksEvery` | app.js:793-801 | after the bulk unlock of any exhibit list, every model and sound item of that list is unlocked |
| `Progress.UnlockOneItem` | app.js:631-648 | adding one channel key raises the collection count by one exactly when that item was locked, else leaves it |
| `Progress.ItemKeysDistinct` | app.js:624-642 | distinct catalog items have distinct channel keys, and no channel key is a catalog id |
| `Progress.CatalogKeysInjective` | app.js:624-642 | channel keys of different exhibits differ |
| `Progress.CatalogKeyNotId` | app.js:624-642 | no channel key is a catalog id |
| `Progress.CountChange` | app.js:646-648 | if two ledgers differ on one item only, their counts differ by that item's change |
| `Progress.HomePreview` | app.js:170-175 | the home screen shows one badge per exhibit, for at most the first three |
| `Progress.HomePreviewBelowRule` | app.js:170-175 | for every ledger, an as-written badge is lit only if the rule's badge is, and the two agree whenever the exhibit's bare id is absent |
| `Progress.HomePreviewByRule` | app.js:170-175 | the corrected home badges: one per the first three exhibits |
| `Progress.HomePreviewAgreesWithCollection` | app.js:170-175 | a corrected badge is lit exactly when the collection shows a card of that exhibit unlocked |
| `Progress.HomePreviewMissesLegacyUnlock` | app.js:170-175 | as written, a badge stays dark for an exhibit collected through a legacy code, although both its cards show unlocked |
| `Navigation.InitialValid` | app.js:87-88 | the start state `home`/`[home]` satisfies the invariant |
| `Navigation.Navigate` | app.js:108-116 | definition: push and switch only to an existing screen that differs from the current one (characterised by `NavigateSpec`) |
| `Navigation.BackAsWritten` | app.js:146-151 | definition: pop one entry, then `Navigate` to the new top (see `BackAsWrittenRepushes`, `BackAsWrittenStalls`) |
| `Navigation.Back` | app.js:146-151 | definition of the intended back: pop one entry and show the new top (see `BackUndoesNavigate`) |
| `Navigation.NavigateSpec` | app.js:108-116 | navigation changes the state exactly when the target exists and differs from the current screen; it then appends exactly the target and makes it current; the invariant is preserved |
| `Navigation.BackPreservesValid` | app.js:146-151 | going back never empties the history and keeps its top equal to the current screen |
| `Navigation.BackAtHomeIsNoOp` | app.js:147 | going back with only `home` in the history does nothing |
| `Navigation.BackAsWrittenRepushes` | app.js:146-151 | as written, going back to a different screen pops once and pushes once, so the history never shrinks |
| `Navigation.BackAsWrittenStalls` | app.js:146-151 | as written, from `home -> collection -> route` two back presses stay on `collection`; the intended back reaches `home` |
| `Navigation.BackUndoesNavigate` | app.js:146-151 | the intended back restores the state from before a navigation that moved |
| `App.AppState.constructor` | app.js:87-95 | page load: on `home` with history `[home]`, ledger read from storage (absent reads as empty), scanner stopped, no audio |
| `App.Load` | app.js:89 | definition: an absent entry reads as the empty ledger, a stored list as itself |
| `App.AppState.StopScanner` | app.js:604-611 | afterwards no scanner instance holds the camera |
| `App.AppState.InitScanner` | app.js:487-511 | afterwards a scanner instance is running |
| `App.AppState.NavigateTo` | app.js:98-144 | the navigation state moves as `Navigate` says; leaving `scanner` stops the scanner even when the target has no screen; an existing target is shown and hides the menu exactly on `ar`/`scanner`; a missing target leaves no screen shown; the scanner runs after a move to `scanner`; the ledger and storage are untouched |
| `App.AppState.GoBack` | app.js:146-152 | the navigation state moves as the as-written back says; with one entry nothing changes; otherwise the previous screen is shown, the menu follows it, and the QR scanner is running exactly when the previous screen is `scanner` (going back onto it restarts it, leaving it stops it) |
| `App.AppState.OnScanSuccess` | app.js:519-575 | outcome and new ledger are those of `Scan`; the ledger is stored exactly on `NewlyCollected`; the result dialog opens; the scanner is paused on the two unlock outcomes only; navigation is untouched |
| `App.AppState.ApplyScan` | app.js:526-562 | outcome and new ledger are those of `Scan`; the ledger is stored exactly on `NewlyCollected`; the stored copy stays equal to the ledger |
| `App.AppState.RecordUnlock` | app.js:553-555 | a missing key is appended and stored, giving `NewlyCollected` with the new ledger size; a present key leaves ledger and storage unchanged and gives `AlreadyCollected` |
| `App.AppState.CloseScanResult` | app.js:594-602 | the dialog closes and a paused scanner resumes |
| `App.AppState.Reload` | app.js:803 | a reload restarts the session on `home` with the stored ledger |
| `App.AppState.UnlockAll` | app.js:793-804 | the ledger becomes the bulk unlock of the old ledger and is stored; after the reload the page is on `home` with history `[home]`, home shown, menu visible, scanner stopped, no dialog or audio, model index 0 and no models |
| `App.AddChannelKeys` | app.js:794-801 | the loop over the exhibits computes exactly the bulk unlock of the ledger |
| `App.AppState.ResetProgress` | app.js:807-811 | the ledger is emptied and the stored entry removed; after the reload the page is on `home` with history `[home]`, home shown, menu visible, scanner stopped, no dialog or audio, model index 0 and no models |
| `App.AppState.LoadModels` | app.js:314-353 | each of the four exhibits gets a model; only the first is visible |
| `App.AppState.SwitchModel` | app.js:359-365 | the model at the index is visible and every other one hidden |
| `App.AppState.PlaySound` | app.js:420-441 | the single audio slot holds the new exhibit's sound, replacing any playing one; an unknown id changes nothing |
| `App.AppState.OnAudioEnded` | app.js:438-441 | the slot is empty once the sound ends |
| `App.AppState.UpdateCollectionScreen` | app.js:614-652 | eight cards in catalog order, each flagged by the unlock rule; the unlocked count equals the number of unlocked items, at most the total; the percentage rounds it |
| `App.AppState.UpdateRouteScreen` | app.js:682-722 | the waypoints are the catalog expansion; the completed count equals the collection's count; the progress rounds it; the active index is the first incomplete waypoint, or -1 exactly when all are complete |
| `App.AppState.UpdateHomeScreen` | app.js:164-175 | the count is the raw number of ledger keys; the badges are `HomePreview` of the ledger, each lit when the exhibit's model or sound key is present |
| `App.ScannerToArScenario` | app.js:98-144 | the walk `home -> scanner -> ar -> home` ends valid on `home` with the menu visible and the QR scanner stopped |
| `Scenarios.FirstModelCode` | app.js:526-529 | `ar-collect:model:bell_47g` parses as the canonical code for the `bell_47g` model |
| `Scenarios.FirstModelScan` | app.js:526-562 | scanning that code on an empty ledger collects the `bell_47g` model key as item 1 |
| `Scenarios.KeySpellings` | app.js:550 | the keys are spelled `bell_47g_model` and `saab_sound` |
| `Scenarios.OneModelCollected` | app.js:646-652 | with only `bell_47g_model` the collection shows `1 / 8` and `13%` |
| `Scenarios.EllehammerLegacyCode` | app.js:530-532 | `ar-feature:ellehammer` parses as the legacy code for `ellehammer` |
| `Scenarios.LegacyScanUnlocksBoth` | app.js:530-562 | scanning that code on a ledger without `ellehammer` appends the bare id, which unlocks both its model and its sound |
| `Scenarios.GarbageScan` | app.js:533-535 | `garbage-text` is unrecognized and the ledger is unchanged |
| `Scenarios.SaabSoundCode` | app.js:526-529 | `ar-collect:sound:saab` parses as the canonical code for the `saab` sound |
| `Scenarios.RescanCollected` | app.js:563-568 | rescanning that code once `saab_sound` is collected reports `AlreadyCollected` and the ledger is unchanged |

## Left out

- AR session (`initAR`, the asset loading in `loadModels`, `stopAR`, `updateARStatus`, `updateARStarCount`): these are foreign library calls with asynchronous polling and a render loop. Only the model registry and the visibility flags of `loadModels` are modelled.
- Instructions (`renderInstructions`, `selectDesign`): these pick one of two static step lists and render HTML. There is no logic to model.
- `renderModelSelector` and `renderSoundControls`: HTML rendering. Their unlock test is the same rule as `Progress.Unlocked`.
- The floating menu toggle, the outside-click listener, the loading overlay, the result dialog's texts, CSS classes and animations: UI only.
- The scanner library's internals and the camera. Starting, stopping, pausing and resuming are modelled only as the three-state `ScannerState`.
- App.AppState.InitScanner: models a scanner start that always succeeds. A failed start (the `alert` branch) is not modelled, nor is the awaited stop of a previous instance.
- The `qrbox` sizing (floating-point `* 0.7`) and the frame rate: scanner configuration only.
- `localStorage` and JSON encoding: the stored entry is the decoded list, or absent. The model assumes `stringify` followed by `parse` reproduces the list.
- Floating point in the percentages: `RoundPercent` uses exact rationals. This matches the source because the total is always 8, so `k / 8 * 100` is exact in binary floating point.
- `location.reload()`: modelled as `Reload`, which restarts the session from the stored ledger.
- Audio playback itself (`Audio`, `play`, `pause`, `currentTime`): browser API. Only the single slot is modelled.
- Async interleavings: one event handler might start while an awaited scanner or AR call is still pending. Each handler here runs to completion.

## Findings

| source | as written | input that shows it | evidently intended | confidence | as-written member | corrected member |
|---|---|---|---|---|---|---|
| app.js:146-151 | `goBack` pops one entry and then calls `navigateTo`, which pushes the previous screen again because it differs from the current one | history `home -> collection -> route`, back pressed twice: the second press stays on `collection` | each back press shows the previous screen and shortens the history | medium, not executed | `Navigation.BackAsWrittenStalls` (on `Navigation.BackAsWritten`, used by `App.AppState.GoBack`) | `Navigation.BackUndoesNavigate` (on `Navigation.Back`) |
| app.js:170-175 | home badges test only `<id>_model` and `<id>_sound`, not the bare id | ledger `["bell_47g"]` after scanning `ar-feature:bell_47g`: the collection shows both cards unlocked, the first home badge stays dark | badges use the unlock rule of the other screens | medium, not executed | `Progress.HomePreviewMissesLegacyUnlock` (on `Progress.HomePreview`, used by `App.AppState.UpdateHomeScreen`) | `Progress.HomePreviewAgreesWithCollection` (on `Progress.HomePreviewByRule`) |

The class methods keep the source's behaviour. The corrected definitions are the ones the lemmas about the intended behaviour are stated over.
