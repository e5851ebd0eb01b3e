# Shopping-list state manager, modelled in Dafny

This project models the core of the Android shopping-list app: `ListViewModel`, which owns the in-memory list of
`ShoppingItem`s, applies the user's edits, derives the per-aisle grouping, and persists the list through a
debounced save. It also models the pure rules of the screens that decide what goes into that list.

- `models.dfy` (module `Models`): the data classes. `ShoppingItem` has the five identifying strings plus `size`,
  `quantity` and `checked`, because the view model and screens read and copy those three. `ShoppingList` wraps one
  ordered sequence. The search inputs are `Product`, `ProductImage`, `ProductSize` and `ProductAisleLocation`. The
  `copy(...)` calls are `WithChecked` and `WithQuantity`.
- `list_rules.dfy` (module `ListRules`): each list edit of `ListViewModel` as a pure function over
  `seq<ShoppingItem>`. Alongside them are the list invariant `Valid` (unique `productId`, every quantity ≥ 1) and
  the lemmas that relate the edits to each other and to the invariant.
- `grouping.dfy` (module `Grouping`): `groupBy { it.aisleDescription }`. `Groups` is a reference definition.
  `GroupBy` is a one-pass implementation proved equal to it. Lemmas give keys, contents and the permutation
  property.
- `view_models.dfy` (module `ViewModels`): the view model with its file and its pending save. The clock is an
  abstract reading `now` in milliseconds. The pending coroutine is a single optional deadline. `Tick` is the clock
  reaching a time: a save that is due runs then and writes the live list. User actions form timed traces, which
  are used to state the coalescing of bursts and the "file equals list when nothing is pending" invariant.
- `main_activity.dfy` (module `MainActivity`): the list-file bootstrap, and how a search hit gets its aisle and
  thumbnail. It also covers the add-versus-adjust branch of `ItemPreview` and the item that "Add" creates.

The file is modelled as its decoded content, `Option<ShoppingList>` (`None` while the file does not exist).
Encoding and decoding are therefore the identity. File writes are counted in `ListViewModel.writes`.

An edit and a due save can happen at the same clock reading. In that case the model runs the save first (`Step`
applies `Tick` before the action).

## Model

| member | source | states |
|---|---|---|
| `Models.WithChecked` | app/src/main/java/com/example/betterkroger/viewmodels/ViewModels.kt:104 | the copy has the new flag and differs from the original in no other field |
| `Models.WithQuantity` | app/src/main/java/com/example/betterkroger/viewmodels/ViewModels.kt:114-115 | the copy has the new quantity and differs from the original in no other field |
| `ListRules.IndexOfFirst` | app/src/main/java/com/example/betterkroger/viewmodels/ViewModels.kt:99-101 | -1 exactly when no item carries the id; otherwise the index of an item with that id, with none before it |
| `ListRules.Append` | app/src/main/java/com/example/betterkroger/viewmodels/ViewModels.kt:88 | one element longer, earlier elements unchanged, the new item last |
| `ListRules.AppendKeepsUnique` | app/src/main/java/com/example/betterkroger/viewmodels/ViewModels.kt:87-90 | on a list with unique ids, appending keeps ids unique if and only if the id was absent (no duplicate check is made) |
| `ListRules.AppendKeepsPositive` | app/src/main/java/com/example/betterkroger/viewmodels/ViewModels.kt:87-90 | appending keeps all quantities ≥ 1 if and only if the new item's quantity is ≥ 1 |
| `ListRules.RemoveChecked` | app/src/main/java/com/example/betterkroger/viewmodels/ViewModels.kt:94 | no checked item remains; every unchecked item keeps its multiplicity; survivors keep their relative order (subsequence) |
| `ListRules.RemoveCheckedIdempotent` | app/src/main/java/com/example/betterkroger/viewmodels/ViewModels.kt:92-96 | clearing checked items twice equals clearing once |
| `ListRules.RemoveCheckedKeepsValid` | app/src/main/java/com/example/betterkroger/viewmodels/ViewModels.kt:94 | clearing checked items preserves unique ids and positive quantities |
| `ListRules.SubsequenceKeepsValid` | app/src/main/java/com/example/betterkroger/viewmodels/ViewModels.kt:129 | dropping items from a valid list, keeping order, leaves a valid list |
| `ListRules.SetChecked` | app/src/main/java/com/example/betterkroger/viewmodels/ViewModels.kt:98-107 | same length; only the first item with the id gets the new flag; every other field of every item is unchanged |
| `ListRules.SetCheckedKeepsValid` | app/src/main/java/com/example/betterkroger/viewmodels/ViewModels.kt:98-107 | setting the flag preserves the list invariant |
| `ListRules.SetCheckedIdempotent` | app/src/main/java/com/example/betterkroger/viewmodels/ViewModels.kt:98-107 | setting the same flag twice equals setting it once |
| `ListRules.Increment` | app/src/main/java/com/example/betterkroger/viewmodels/ViewModels.kt:109-118 | same length; the first item with the id has quantity old + 1 at the same index; nothing else changes |
| `ListRules.IncrementKeepsValid` | app/src/main/java/com/example/betterkroger/viewmodels/ViewModels.kt:109-118 | incrementing preserves the list invariant |
| `ListRules.Decrement` | app/src/main/java/com/example/betterkroger/viewmodels/ViewModels.kt:120-135 | absent id: unchanged. Quantity ≤ 1: the item at the first carrier's position is removed; items before it stay in place, items after it move down by one. Otherwise: decremented in place, nothing else changes |
| `ListRules.DecrementRemovesFirstCopy` | app/src/main/java/com/example/betterkroger/viewmodels/ViewModels.kt:121-129 | when an equal record occurs twice, removal takes the first copy: `[x, y, x]` becomes `[y, x]` |
| `ListRules.DecrementKeepsValid` | app/src/main/java/com/example/betterkroger/viewmodels/ViewModels.kt:120-135 | decrementing (or removing) preserves the list invariant |
| `ListRules.DecrementRemovesItem` | app/src/main/java/com/example/betterkroger/viewmodels/ViewModels.kt:127-129 | with unique ids, decrementing an item of quantity ≤ 1 leaves one item fewer and no item with that id |
| `ListRules.IncrementThenDecrement` | app/src/main/java/com/example/betterkroger/viewmodels/ViewModels.kt:109-135 | increase followed by decrease restores the list when the item's quantity is ≥ 1 |
| `ListRules.DecrementThenIncrement` | app/src/main/java/com/example/betterkroger/viewmodels/ViewModels.kt:109-135 | decrease followed by increase restores the list when the item's quantity is ≥ 2 |
| `Grouping.AisleKeys` | app/src/main/java/com/example/betterkroger/viewmodels/ViewModels.kt:66 | the keys are distinct, are exactly the aisles present, and come in order of first occurrence |
| `Grouping.InAisle` | app/src/main/java/com/example/betterkroger/viewmodels/ViewModels.kt:66 | a group holds only items of its aisle, as a subsequence of the list |
| `Grouping.InAisleCounts` | app/src/main/java/com/example/betterkroger/viewmodels/ViewModels.kt:66 | a group holds every item of its aisle, with the item's multiplicity in the list |
| `Grouping.GroupBy` | app/src/main/java/com/example/betterkroger/viewmodels/ViewModels.kt:66 | the one-pass grouping equals the reference grouping `Groups` |
| `Grouping.FindGroup` | app/src/main/java/com/example/betterkroger/viewmodels/ViewModels.kt:66 | finds the group with the given key, or reports -1 exactly when there is none |
| `Grouping.GroupKeys` | app/src/main/java/com/example/betterkroger/viewmodels/ViewModels.kt:66 | group keys are distinct and in first-occurrence order; every key is the aisle of some item, and every item's aisle has a group |
| `Grouping.GroupContents` | app/src/main/java/com/example/betterkroger/viewmodels/ViewModels.kt:66 | each group is non-empty and holds exactly the items of its aisle, in list order |
| `Grouping.GroupsPermutation` | app/src/main/java/com/example/betterkroger/viewmodels/ViewModels.kt:66 | the concatenated groups are a permutation of the list |
| `Grouping.EachItemInOneGroup` | app/src/main/java/com/example/betterkroger/viewmodels/ViewModels.kt:66 | every item lands in exactly one group |
| `Grouping.DairyAndProduce` | app/src/main/java/com/example/betterkroger/viewmodels/ViewModels.kt:66 | items Dairy a, Produce b, Dairy c group as Dairy [a, c], Produce [b] |
| `ViewModels.ScheduleSave` | app/src/main/java/com/example/betterkroger/viewmodels/ViewModels.kt:137-145 | the one pending save is replaced by one due at now + 1000; nothing is written and the list is untouched |
| `ViewModels.SaveToFile` | app/src/main/java/com/example/betterkroger/viewmodels/ViewModels.kt:147-155 | the file receives the live list; one more write |
| `ViewModels.Tick` | app/src/main/java/com/example/betterkroger/viewmodels/ViewModels.kt:141-144 | a due save writes the list as it is at fire time, exactly once, and leaves nothing pending. Otherwise nothing changes |
| `ViewModels.LoadShoppingItems` | app/src/main/java/com/example/betterkroger/viewmodels/ViewModels.kt:72-85 | a non-empty list is kept and the file not consulted; an empty list becomes the file's items, or loading fails if the file is missing |
| `ViewModels.LoadShoppingItemsGuarded` | app/src/main/java/com/example/betterkroger/viewmodels/ViewModels.kt:72-85 | a no-op while the list is non-empty or a save is pending; otherwise the list becomes the file's items, or the load fails when there is no file; the pending save, the file and the write count never change |
| `ViewModels.Init` | app/src/main/java/com/example/betterkroger/viewmodels/ViewModels.kt:68-70 | a fresh view model succeeds exactly when the file exists, and then holds the file's items with nothing pending |
| `ViewModels.AddItemToList` | app/src/main/java/com/example/betterkroger/viewmodels/ViewModels.kt:87-90 | the list gains the item at the end; a save is always armed; the file is not touched |
| `ViewModels.ClearChecked` | app/src/main/java/com/example/betterkroger/viewmodels/ViewModels.kt:92-96 | checked items are removed; a save is armed even when nothing was removed |
| `ViewModels.UpdateCheckedStatus` | app/src/main/java/com/example/betterkroger/viewmodels/ViewModels.kt:98-107 | absent id: no change and no save. Present id: flag set and save armed, even if the flag already had that value |
| `ViewModels.IncreaseQuantity` | app/src/main/java/com/example/betterkroger/viewmodels/ViewModels.kt:109-118 | absent id: no change and no save. Present id: incremented and save armed |
| `ViewModels.DecreaseQuantity` | app/src/main/java/com/example/betterkroger/viewmodels/ViewModels.kt:120-135 | absent id: no change and no save. Present id: decremented or removed, and save armed |
| `ViewModels.GroupedShoppingItems` | app/src/main/java/com/example/betterkroger/viewmodels/ViewModels.kt:66 | the derived view is a permutation of the live list with distinct keys |
| `ViewModels.Apply` | app/src/main/java/com/example/betterkroger/viewmodels/ViewModels.kt:87-135 | an action that schedules arms a save at now + 1000; one that does not leaves the state unchanged; no action writes the file |
| `ViewModels.BurstCoalesces` | app/src/main/java/com/example/betterkroger/viewmodels/ViewModels.kt:137-145 | a burst of edits spaced under 1000 ms writes nothing and leaves one save pending, due 1000 ms after the last edit |
| `ViewModels.BurstWritesOnce` | app/src/main/java/com/example/betterkroger/viewmodels/ViewModels.kt:137-155 | after a burst, nothing is written before the deadline; at or after it, exactly one write of the list as it then is |
| `ViewModels.ThreeAdditionsOneWrite` | app/src/main/java/com/example/betterkroger/viewmodels/ViewModels.kt:137-155 | additions at 0, 200 and 400 ms give one write, at 1400 ms, holding all three items |
| `ViewModels.StepKeepsPersisted` | app/src/main/java/com/example/betterkroger/viewmodels/ViewModels.kt:87-155 | every timed action keeps "no save pending implies the file equals the list" |
| `ViewModels.RunKeepsPersisted` | app/src/main/java/com/example/betterkroger/viewmodels/ViewModels.kt:87-155 | the same holds along every trace of actions |
| `ViewModels.QuiescentStoreMatches` | app/src/main/java/com/example/betterkroger/viewmodels/ViewModels.kt:141-155 | once the clock passes the pending deadline, the file equals the in-memory list |
| `ViewModels.Cleared` | app/src/main/java/com/example/betterkroger/viewmodels/ViewModels.kt:141-144 | clearing the view model cancels its scope: nothing stays pending, and the list, the file and the write count are unchanged, so an armed save never runs |
| `ViewModels.ClearedFlushing` | app/src/main/java/com/example/betterkroger/viewmodels/ViewModels.kt:137-155 | the corrected clearing runs a pending save at once: nothing stays pending, the file then holds the live list with one more write, and an idle view model is left alone |
| `ViewModels.ClearedLosesEdit` | app/src/main/java/com/example/betterkroger/viewmodels/ViewModels.kt:87-90 | as written, adding an item and clearing the view model before the deadline leaves the file without the item forever: no later tick writes, and the file no longer matches the list |
| `ViewModels.ClearedFlushingKeepsEdit` | app/src/main/java/com/example/betterkroger/viewmodels/ViewModels.kt:87-90 | with the flush, the same addition reaches the file with one write, and the file matches the list |
| `ViewModels.InitAgreesWithGuardedLoad` | app/src/main/java/com/example/betterkroger/viewmodels/ViewModels.kt:68-85 | on a fresh view model, with nothing pending, the load as written and the guarded load give the same result |
| `ViewModels.InitPersisted` | app/src/main/java/com/example/betterkroger/viewmodels/ViewModels.kt:68-85 | a freshly loaded view model is in line with its file |
| `ViewModels.ApplyKeepsValid` | app/src/main/java/com/example/betterkroger/viewmodels/ViewModels.kt:87-135 | every action keeps unique ids and quantities ≥ 1, an addition provided its id is new and its quantity ≥ 1 |
| `ViewModels.GuardedLoadKeepsList` | app/src/main/java/com/example/betterkroger/viewmodels/ViewModels.kt:72-85 | with the corrected guard, loading never replaces the in-memory list |
| `ViewModels.LoadRestoresClearedItem` | app/src/main/java/com/example/betterkroger/viewmodels/ViewModels.kt:74-77 | as written, clearing the only item and loading before the save fires restores the item, and the save writes it back |
| `ViewModels.LoadIdempotent` | app/src/main/java/com/example/betterkroger/viewmodels/ViewModels.kt:72-85 | the corrected load, applied twice, gives the same result as applied once |
| `MainActivity.EnsureListFileExists` | app/src/main/java/com/example/betterkroger/MainActivity.kt:90-104 | afterwards the file exists; a missing file becomes the empty list, and an existing file is unchanged |
| `MainActivity.EnsureListFileExistsIdempotent` | app/src/main/java/com/example/betterkroger/MainActivity.kt:90-104 | bootstrapping twice equals bootstrapping once |
| `MainActivity.BootstrapThenInit` | app/src/main/java/com/example/betterkroger/MainActivity.kt:75 | after the bootstrap the view model's first load succeeds, giving the empty list on a first run and the stored items otherwise |
| `MainActivity.AisleOf` | app/src/main/java/com/example/betterkroger/MainActivity.kt:437-457 | no aisle locations: "No Aisle Found" / "No Aisle Description Found". Otherwise number and description of the first location |
| `MainActivity.FrontThumbnail` | app/src/main/java/com/example/betterkroger/MainActivity.kt:439-453 | present exactly when some front image has sizes; then it is the first size of the last such image |
| `MainActivity.SelectThumbnail` | app/src/main/java/com/example/betterkroger/MainActivity.kt:439-453 | the loop over the images computes exactly `FrontThumbnail` |
| `MainActivity.NewShoppingItem` | app/src/main/java/com/example/betterkroger/MainActivity.kt:536-543 | id, brand, description and aisle fields copied verbatim; size "" when absent; unchecked; the default quantity |
| `MainActivity.ItemPreview` | app/src/main/java/com/example/betterkroger/MainActivity.kt:492-543 | quantity controls iff some list item has the id, showing the first match's quantity; otherwise "Add" for the new item |
| `MainActivity.ProductPreview` | app/src/main/java/com/example/betterkroger/MainActivity.kt:436-472 | a product is offered exactly when it has a front image with sizes, with the aisle chosen by `AisleOf` |
| `MainActivity.SearchPreviews` | app/src/main/java/com/example/betterkroger/MainActivity.kt:435-473 | at most one preview per product; none if no product has a thumbnail, one each if all do |
| `MainActivity.AddFromSearchKeepsValid` | app/src/main/java/com/example/betterkroger/MainActivity.kt:492-494 | the add path never introduces a duplicate id, and keeps quantities ≥ 1 when the default is ≥ 1 |
| `MainActivity.SearchItemFields` | app/src/main/java/com/example/betterkroger/MainActivity.kt:536-543 | an added item carries the hit's id, brand and description and its first aisle location's fields (or the placeholders); size "" when absent; unchecked |

## Left out

- `SearchViewModel` (HTTP search through ktor): network I/O. The search result enters the model as a plain
  `seq<Product>`.
- Gson encoding and decoding, and the file reads and writes: foreign library calls. The file is its decoded
  `ShoppingList`, so the JSON round trip is not modelled. Neither are Gson's defaults for fields missing from an
  older file.
- Coroutines (`viewModelScope`, `Job`, `delay`): replaced by a discrete clock and one optional deadline.
  `saveJob?.cancel()` in `scheduleSave` becomes a replaced deadline. The other cancellation, of `viewModelScope`
  when the view model is cleared (its navigation entry popped, for example by Back, or the activity finishing), is
  `ViewModels.Cleared`. It drops a save armed less than 1000 ms earlier, so that edit is never written
  (`ViewModels.ClearedLosesEdit`). The timed traces have no clearing event, so `ViewModels.BurstWritesOnce` and
  `ViewModels.QuiescentStoreMatches` describe a view model that is not cleared before its deadline.
- Exceptions from `saveToFile`: the code catches none, so no write-failure state is modelled.
- Compose UI, navigation, colours, swipe thresholds, toasts and logging: presentation only.
- `clearItem` and `AppSettingsViewModel`: they are called from `MainActivity.kt`, but their definitions are not
  part of this model.
- The product's size and price (`product.items.get(0)?.size`, `?.price?.regular`): `Product` in `Models.kt`
  declares no `items` field. The size enters as a parameter (`productSize`, or `sizeOf` for a whole result), and
  the price is display only.
- The default value of `ShoppingItem.quantity` is not declared in the shown code. It is the parameter
  `defaultQuantity`, and the lemmas that need a positive quantity assume `defaultQuantity >= 1`.
- `quantity` is an unbounded integer: its declared type is not visible, so no 32-bit wrap-around is modelled.
- `ViewModels.Result` has a single error, `FileNotFound`. An unreadable or undecodable file is left out with the
  codec.
- Several screens, one file: the model has one `ListViewModel` as the file's only writer. `ViewList` and
  `ProductSearch` (MainActivity.kt:235, 366) obtain their view models from different navigation entries, so they
  can hold separate instances that read and write the same file.
- `MainActivity.SearchPreviews`: its contract gives only the count bounds and the all-or-none cases. Which product
  yields which preview is stated per product by `MainActivity.ProductPreview`.

Three behaviours of the code worth noting:

- `addItemToList` does not reject a duplicate id. Uniqueness is kept only when callers take the add path of
  `ItemPreview`, which they do only for an absent id (`AppendKeepsUnique`, `AddFromSearchKeepsValid`).
- `updateCheckedStatus` schedules a save whenever the id is present, even if the flag does not change.
- Loading from a missing file fails (`FileNotFound`) rather than yielding an empty list. `ensureListFileExists`
  guarantees the file exists before the first load (`BootstrapThenInit`).

## Findings

| source | as written | input that shows it | evidently intended | confidence | as-written member | corrected member |
|---|---|---|---|---|---|---|
| app/src/main/java/com/example/betterkroger/viewmodels/ViewModels.kt:74-77 | `loadShoppingItems` skips reading only when the list is non-empty. `ViewList` calls it every time the list screen opens (MainActivity.kt:239-241) | a list holding one checked item, already saved. On the list screen "Clear Checked" empties it and arms a save. Within 1000 ms the user taps "Home" and then presses the system Back button, which returns to the same list entry and the same `ListViewModel`; a configuration change such as a rotation does the same. `LaunchedEffect` runs again, the load sees an empty list, reads the stale file and restores the item. The pending save then writes the item back, so the clear is lost. Reopening through Home and "View List" instead creates a new entry and a new view model, which this row does not cover | a load must not replace the list while an edit is unsaved: skip it while a save is pending | not executed; medium (needs Back or a configuration change within the debounce interval) | `ViewModels.LoadRestoresClearedItem` (on `ViewModels.LoadShoppingItems`) | `ViewModels.LoadShoppingItemsGuarded`, with `ViewModels.GuardedLoadKeepsList`; at start-up both loads agree (`ViewModels.InitAgreesWithGuardedLoad`) |
| app/src/main/java/com/example/betterkroger/viewmodels/ViewModels.kt:141-144 | the save runs in `viewModelScope`, which is cancelled when the view model is cleared; nothing saves the pending list first | on the search screen the user taps "Add" on a hit (MainActivity.kt:351), which appends the item and arms a save. Within 1000 ms the user presses the system Back button, which pops the search entry and clears its `ListViewModel`. The scope is cancelled before `delay(1000L)` ends, so the file never receives the item. Checking an item on the list screen and pressing Back is the same case | a pending save is written when the view model is cleared, so only the end of the process can lose an edit | not executed; medium (needs Back or finishing within the debounce interval) | `ViewModels.ClearedLosesEdit` (on `ViewModels.Cleared`) | `ViewModels.ClearedFlushing`, with `ViewModels.ClearedFlushingKeepsEdit` |
