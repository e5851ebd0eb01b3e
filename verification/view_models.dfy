/** `ListViewModel`: the owner of the in-memory shopping list. Every
    mutation applies a list rule (module ListRules) and then re-arms a
    debounced save; when the save fires it writes the list as it is at that
    moment. Time is an abstract clock reading `now` in milliseconds, the
    pending coroutine is its deadline, and the file is its decoded content. */
module ViewModels {
  import opened Models
  import opened ListRules
  import Grouping

  /** `delay(1000L)` in `scheduleSave`. */
  const DebounceMillis: int := 1000

  /** `openFileInput` on a file that does not exist throws. */
  datatype LoadError = FileNotFound

  datatype Result<+T> = Ok(value: T) | Err(error: LoadError)

  /** The view model together with the file it persists to.
      `saveJob`: the deadline of the pending save, if one is armed.
      `store`: the content of the list file, `None` while it does not exist.
      `writes`: how many times the file has been written. */
  datatype ListViewModel = ListViewModel(
    shoppingItems: seq<ShoppingItem>,
    saveJob: Option<int>,
    store: Option<ShoppingList>,
    writes: nat
  )

  /** When no save is pending, the file holds exactly the in-memory list. */
  predicate Persisted(vm: ListViewModel) {
    vm.saveJob.None? ==> vm.store == Some(ShoppingList(vm.shoppingItems))
  }

  // ---------------------------------------------------------------------
  // Debounced save

  /** `scheduleSave`: cancel the pending save, if any, and arm one that
      fires `DebounceMillis` after `now`. Nothing is written yet. */
  function ScheduleSave(vm: ListViewModel, now: int): (r: ListViewModel)
    ensures r.saveJob == Some(now + DebounceMillis)
    ensures r.shoppingItems == vm.shoppingItems && r.store == vm.store && r.writes == vm.writes
  {
    vm.(saveJob := Some(now + DebounceMillis))
  }

  /** `saveToFile`: the file receives the live list. */
  function SaveToFile(vm: ListViewModel): (r: ListViewModel)
    ensures r.store == Some(ShoppingList(vm.shoppingItems))
    ensures r.writes == vm.writes + 1
    ensures r.shoppingItems == vm.shoppingItems && r.saveJob == vm.saveJob
  {
    vm.(store := Some(ShoppingList(vm.shoppingItems)), writes := vm.writes + 1)
  }

  /** The pending save's deadline has been reached at `now`. */
  predicate Due(vm: ListViewModel, now: int) {
    vm.saveJob.Some? && vm.saveJob.value <= now
  }

  /** The clock reads `now`. A save whose deadline has passed runs once and
      writes the list as it is at this moment; otherwise nothing happens. */
  function Tick(vm: ListViewModel, now: int): (r: ListViewModel)
    ensures Due(vm, now) ==>
      && r.store == Some(ShoppingList(vm.shoppingItems))
      && r.writes == vm.writes + 1
      && r.saveJob.None?
      && r.shoppingItems == vm.shoppingItems
    ensures !Due(vm, now) ==> r == vm
    ensures Persisted(r) || r == vm
  {
    if Due(vm, now) then SaveToFile(vm).(saveJob := None) else vm
  }

  // ---------------------------------------------------------------------
  // Clearing

  /** The view model is cleared (its navigation entry is popped, or the
      activity finishes): `viewModelScope` is cancelled, so a pending save
      is dropped without running. `ListViewModel` adds nothing of its own. */
  function Cleared(vm: ListViewModel): (r: ListViewModel)
    ensures r.saveJob.None?
    ensures r.shoppingItems == vm.shoppingItems && r.store == vm.store && r.writes == vm.writes
  {
    vm.(saveJob := None)
  }

  /** Clearing that keeps the last edit: a pending save runs at once,
      before the scope is cancelled. */
  function ClearedFlushing(vm: ListViewModel): (r: ListViewModel)
    ensures r.saveJob.None? && r.shoppingItems == vm.shoppingItems
    ensures vm.saveJob.Some? ==> r.store == Some(ShoppingList(vm.shoppingItems)) && r.writes == vm.writes + 1
    ensures vm.saveJob.None? ==> r == vm
    ensures Persisted(vm) ==> Persisted(r)
  {
    if vm.saveJob.Some? then SaveToFile(vm).(saveJob := None) else vm
  }

  // ---------------------------------------------------------------------
  // Loading

  /** `loadShoppingItems` as written: a non-empty list is kept and the file
      is not read; otherwise the list becomes the file's items. */
  function LoadShoppingItems(vm: ListViewModel): (r: Result<ListViewModel>)
    ensures |vm.shoppingItems| > 0 ==> r == Ok(vm)
    ensures |vm.shoppingItems| == 0 ==> (r.Err? <==> vm.store.None?)
    ensures |vm.shoppingItems| == 0 && vm.store.Some? ==>
      r == Ok(vm.(shoppingItems := vm.store.value.items))
  {
    if |vm.shoppingItems| > 0 then Ok(vm)
    else if vm.store.None? then Err(FileNotFound)
    else Ok(vm.(shoppingItems := vm.store.value.items))
  }

  /** `loadShoppingItems` with the guard it needs: the file is not read
      while a save is pending either, since the file is then stale. */
  function LoadShoppingItemsGuarded(vm: ListViewModel): (r: Result<ListViewModel>)
    ensures |vm.shoppingItems| > 0 || vm.saveJob.Some? ==> r == Ok(vm)
    ensures r.Err? <==> |vm.shoppingItems| == 0 && vm.saveJob.None? && vm.store.None?
    ensures |vm.shoppingItems| == 0 && vm.saveJob.None? && vm.store.Some? ==>
      r == Ok(vm.(shoppingItems := vm.store.value.items))
    ensures r.Ok? ==> r.value.saveJob == vm.saveJob && r.value.store == vm.store && r.value.writes == vm.writes
  {
    if vm.saveJob.Some? then Ok(vm) else LoadShoppingItems(vm)
  }

  /** `init { loadShoppingItems() }`: a fresh view model with no list and no
      pending save loads the file. */
  function Init(store: Option<ShoppingList>): (r: Result<ListViewModel>)
    ensures r.Ok? <==> store.Some?
    ensures r.Ok? ==> r.value.shoppingItems == store.value.items && r.value.saveJob.None?
    ensures r.Ok? ==> r.value.store == store && r.value.writes == 0
  {
    LoadShoppingItems(ListViewModel([], None, store, 0))
  }

  /** On a fresh view model nothing is pending, so the load as written and
      the guarded load agree: the correction changes nothing at start-up. */
  lemma InitAgreesWithGuardedLoad(store: Option<ShoppingList>)
    ensures Init(store) == LoadShoppingItemsGuarded(ListViewModel([], None, store, 0))
  {
  }

  // ---------------------------------------------------------------------
  // Mutations

  /** `addItemToList`: append, then always schedule a save. */
  function AddItemToList(vm: ListViewModel, item: ShoppingItem, now: int): (r: ListViewModel)
    ensures r.shoppingItems == Append(vm.shoppingItems, item)
    ensures r.saveJob == Some(now + DebounceMillis)
    ensures r.store == vm.store && r.writes == vm.writes
  {
    ScheduleSave(vm.(shoppingItems := Append(vm.shoppingItems, item)), now)
  }

  /** `clearChecked`: remove the checked items, then always schedule a save,
      even when nothing was removed. */
  function ClearChecked(vm: ListViewModel, now: int): (r: ListViewModel)
    ensures r.shoppingItems == RemoveChecked(vm.shoppingItems)
    ensures r.saveJob == Some(now + DebounceMillis)
    ensures r.store == vm.store && r.writes == vm.writes
  {
    ScheduleSave(vm.(shoppingItems := RemoveChecked(vm.shoppingItems)), now)
  }

  /** `updateCheckedStatus`: only the product id of the passed item is used.
      A present id gets the flag and a save, even when the flag already had
      that value; an absent id changes nothing and schedules nothing. */
  function UpdateCheckedStatus(vm: ListViewModel, shoppingListItem: ShoppingItem, checked: bool, now: int): (r: ListViewModel)
    ensures IndexOfFirst(vm.shoppingItems, shoppingListItem.productId) == -1 ==> r == vm
    ensures IndexOfFirst(vm.shoppingItems, shoppingListItem.productId) != -1 ==>
      && r.shoppingItems == SetChecked(vm.shoppingItems, shoppingListItem.productId, checked)
      && r.saveJob == Some(now + DebounceMillis)
    ensures r.store == vm.store && r.writes == vm.writes
  {
    var id := shoppingListItem.productId;
    if IndexOfFirst(vm.shoppingItems, id) == -1 then vm
    else ScheduleSave(vm.(shoppingItems := SetChecked(vm.shoppingItems, id, checked)), now)
  }

  /** `increaseQuantity`: a present id gets one more and a save; an absent
      id changes nothing and schedules nothing. */
  function IncreaseQuantity(vm: ListViewModel, productId: string, now: int): (r: ListViewModel)
    ensures IndexOfFirst(vm.shoppingItems, productId) == -1 ==> r == vm
    ensures IndexOfFirst(vm.shoppingItems, productId) != -1 ==>
      && r.shoppingItems == Increment(vm.shoppingItems, productId)
      && r.saveJob == Some(now + DebounceMillis)
    ensures r.store == vm.store && r.writes == vm.writes
  {
    if IndexOfFirst(vm.shoppingItems, productId) == -1 then vm
    else ScheduleSave(vm.(shoppingItems := Increment(vm.shoppingItems, productId)), now)
  }

  /** `decreaseQuantity`: a present id loses one, or the item is removed
      when its quantity would drop to zero, and a save is scheduled; an
      absent id changes nothing and schedules nothing. */
  function DecreaseQuantity(vm: ListViewModel, productId: string, now: int): (r: ListViewModel)
    ensures IndexOfFirst(vm.shoppingItems, productId) == -1 ==> r == vm
    ensures IndexOfFirst(vm.shoppingItems, productId) != -1 ==>
      && r.shoppingItems == Decrement(vm.shoppingItems, productId)
      && r.saveJob == Some(now + DebounceMillis)
    ensures r.store == vm.store && r.writes == vm.writes
  {
    if IndexOfFirst(vm.shoppingItems, productId) == -1 then vm
    else ScheduleSave(vm.(shoppingItems := Decrement(vm.shoppingItems, productId)), now)
  }

  /** `groupedShoppingItems`: derived from the live list, never stored. */
  function GroupedShoppingItems(vm: ListViewModel): (r: seq<Grouping.Group>)
    ensures multiset(Grouping.Flatten(r)) == multiset(vm.shoppingItems)
    ensures forall i, j :: 0 <= i < j < |r| ==> r[i].aisle != r[j].aisle
  {
    Grouping.GroupsPermutation(vm.shoppingItems);
    Grouping.GroupKeys(vm.shoppingItems);
    Grouping.Groups(vm.shoppingItems)
  }

  // ---------------------------------------------------------------------
  // Event traces

  /** The user actions that reach the view model. */
  datatype Action =
    | AddItem(item: ShoppingItem)
    | Clear
    | UpdateChecked(shoppingListItem: ShoppingItem, checked: bool)
    | Increase(productId: string)
    | Decrease(productId: string)

  /** An action at clock reading `at`. */
  datatype Event = Event(at: int, action: Action)

  /** The action schedules a save when applied to `items`. */
  predicate Schedules(items: seq<ShoppingItem>, a: Action) {
    match a
    case AddItem(_) => true
    case Clear => true
    case UpdateChecked(s, _) => IndexOfFirst(items, s.productId) != -1
    case Increase(id) => IndexOfFirst(items, id) != -1
    case Decrease(id) => IndexOfFirst(items, id) != -1
  }

  function Apply(vm: ListViewModel, a: Action, now: int): (r: ListViewModel)
    ensures Schedules(vm.shoppingItems, a) ==> r.saveJob == Some(now + DebounceMillis)
    ensures !Schedules(vm.shoppingItems, a) ==> r == vm
    ensures r.store == vm.store && r.writes == vm.writes
  {
    match a
    case AddItem(item) => AddItemToList(vm, item, now)
    case Clear => ClearChecked(vm, now)
    case UpdateChecked(s, c) => UpdateCheckedStatus(vm, s, c, now)
    case Increase(id) => IncreaseQuantity(vm, id, now)
    case Decrease(id) => DecreaseQuantity(vm, id, now)
  }

  /** The clock reaches the event's time (a due save runs first), then the
      action is applied. */
  function Step(vm: ListViewModel, e: Event): ListViewModel {
    Apply(Tick(vm, e.at), e.action, e.at)
  }

  function Run(vm: ListViewModel, events: seq<Event>): ListViewModel
    decreases |events|
  {
    if |events| == 0 then vm else Run(Step(vm, events[0]), events[1..])
  }

  /** Event times never go back, and each event comes less than one debounce
      interval after the previous one. */
  predicate Spaced(events: seq<Event>) {
    forall i :: 0 <= i < |events| - 1 ==>
      events[i].at <= events[i + 1].at < events[i].at + DebounceMillis
  }

  /** Every action of the trace schedules a save in the state it meets. */
  predicate AllSchedule(vm: ListViewModel, events: seq<Event>)
    decreases |events|
  {
    |events| == 0 ||
    (Schedules(Tick(vm, events[0].at).shoppingItems, events[0].action) && AllSchedule(Step(vm, events[0]), events[1..]))
  }

  // ---------------------------------------------------------------------
  // Properties

  /** A burst of edits, each less than a debounce interval after the one
      before, writes nothing while it lasts and leaves exactly one save
      pending, due one interval after the last edit. */
  lemma {:induction false} BurstCoalesces(vm: ListViewModel, events: seq<Event>)
    requires |events| > 0
    requires !Due(vm, events[0].at)
    requires Spaced(events) && AllSchedule(vm, events)
    ensures var r := Run(vm, events);
      && r.writes == vm.writes
      && r.store == vm.store
      && r.saveJob == Some(events[|events| - 1].at + DebounceMillis)
    decreases |events|
  {
    var next := Step(vm, events[0]);
    assert Tick(vm, events[0].at) == vm;
    if |events| > 1 {
      assert Spaced(events[1..]) by {
        forall i | 0 <= i < |events[1..]| - 1
          ensures events[1..][i].at <= events[1..][i + 1].at < events[1..][i].at + DebounceMillis
        {
          assert events[1..][i] == events[i + 1] && events[1..][i + 1] == events[i + 2];
        }
      }
      assert !Due(next, events[1].at);
      BurstCoalesces(next, events[1..]);
    }
  }

  /** After the burst, the one save fires at its deadline and writes the
      list as it is then; before the deadline nothing is written. */
  lemma BurstWritesOnce(vm: ListViewModel, events: seq<Event>, t: int)
    requires |events| > 0
    requires !Due(vm, events[0].at)
    requires Spaced(events) && AllSchedule(vm, events)
    ensures var r := Run(vm, events);
      var fire := events[|events| - 1].at + DebounceMillis;
      && (t < fire ==> Tick(r, t).writes == vm.writes)
      && (t >= fire ==>
            Tick(r, t).writes == vm.writes + 1 && Tick(r, t).store == Some(ShoppingList(r.shoppingItems)))
  {
    BurstCoalesces(vm, events);
  }

  /** Three additions at 0, 200 and 400 ms produce one write, at 1400 ms,
      holding the list after the third. */
  lemma ThreeAdditionsOneWrite(vm: ListViewModel, a: ShoppingItem, b: ShoppingItem, c: ShoppingItem)
    requires vm.saveJob.None?
    ensures var r := Run(vm, [Event(0, AddItem(a)), Event(200, AddItem(b)), Event(400, AddItem(c))]);
      && r.shoppingItems == vm.shoppingItems + [a, b, c]
      && Tick(r, 1399).writes == vm.writes
      && Tick(r, 1400).writes == vm.writes + 1
      && Tick(r, 1400).store == Some(ShoppingList(vm.shoppingItems + [a, b, c]))
  {
    var events := [Event(0, AddItem(a)), Event(200, AddItem(b)), Event(400, AddItem(c))];
    assert events[1..] == [Event(200, AddItem(b)), Event(400, AddItem(c))];
    assert events[1..][1..] == [Event(400, AddItem(c))];
    assert events[1..][1..][1..] == [];
    var vm1 := Step(vm, events[0]);
    var vm2 := Step(vm1, events[1]);
    var vm3 := Step(vm2, events[2]);
    assert vm1.shoppingItems == vm.shoppingItems + [a];
    assert vm2.shoppingItems == vm.shoppingItems + [a] + [b];
    assert vm3.shoppingItems == vm.shoppingItems + [a] + [b] + [c];
    assert AllSchedule(vm3, []);
    assert AllSchedule(vm2, events[1..][1..]);
    assert AllSchedule(vm1, events[1..]);
    assert AllSchedule(vm, events);
    assert Run(vm3, []) == vm3;
    assert Run(vm2, events[1..][1..]) == vm3;
    assert Run(vm1, events[1..]) == vm3;
    assert Run(vm, events) == vm3;
    BurstWritesOnce(vm, events, 1399);
    BurstWritesOnce(vm, events, 1400);
    assert vm.shoppingItems + [a] + [b] + [c] == vm.shoppingItems + [a, b, c];
  }

  /** Every step keeps the file in line with the list whenever no save is
      pending: an action that changes the list always schedules a save. */
  lemma StepKeepsPersisted(vm: ListViewModel, e: Event)
    requires Persisted(vm)
    ensures Persisted(Step(vm, e))
  {
  }

  lemma {:induction false} RunKeepsPersisted(vm: ListViewModel, events: seq<Event>)
    requires Persisted(vm)
    ensures Persisted(Run(vm, events))
    decreases |events|
  {
    if |events| > 0 {
      StepKeepsPersisted(vm, events[0]);
      RunKeepsPersisted(Step(vm, events[0]), events[1..]);
    }
  }

  /** Once the clock has passed the pending deadline (or none is pending),
      the file equals the in-memory list. */
  lemma QuiescentStoreMatches(vm: ListViewModel, t: int)
    requires Persisted(vm)
    requires vm.saveJob.Some? ==> vm.saveJob.value <= t
    ensures Tick(vm, t).store == Some(ShoppingList(vm.shoppingItems))
  {
  }

  /** A freshly initialised view model is in line with its file. */
  lemma InitPersisted(store: Option<ShoppingList>)
    requires Init(store).Ok?
    ensures Persisted(Init(store).value)
  {
  }

  /** Every action keeps the list invariant, an addition provided its item
      is new and has a positive quantity. */
  lemma ApplyKeepsValid(vm: ListViewModel, a: Action, now: int)
    requires Valid(vm.shoppingItems)
    requires a.AddItem? ==> IndexOfFirst(vm.shoppingItems, a.item.productId) == -1 && a.item.quantity >= 1
    ensures Valid(Apply(vm, a, now).shoppingItems)
  {
    var items := vm.shoppingItems;
    match a
    case AddItem(item) =>
      AppendKeepsUnique(items, item);
      AppendKeepsPositive(items, item);
    case Clear => RemoveCheckedKeepsValid(items);
    case UpdateChecked(s, c) => SetCheckedKeepsValid(items, s.productId, c);
    case Increase(id) => IncrementKeepsValid(items, id);
    case Decrease(id) => DecrementKeepsValid(items, id);
  }

  /** With the guard, a load never discards the in-memory list: whenever
      the file is in line with the list or a save is pending, loading is a
      no-op. */
  lemma GuardedLoadKeepsList(vm: ListViewModel)
    requires Persisted(vm)
    ensures LoadShoppingItemsGuarded(vm) == Ok(vm)
  {
  }

  /** As written, the guard misses an emptied list: clearing the only,
      checked item and loading before the save fires brings the item back,
      and the pending save then writes it to the file again. */
  lemma LoadRestoresClearedItem(item: ShoppingItem)
    requires item.checked
    ensures var vm := ClearChecked(ListViewModel([item], None, Some(ShoppingList([item])), 0), 0);
      && vm.shoppingItems == []
      && Persisted(vm)
      && LoadShoppingItems(vm) == Ok(vm.(shoppingItems := [item]))
      && Tick(LoadShoppingItems(vm).value, DebounceMillis).store == Some(ShoppingList([item]))
      && LoadShoppingItemsGuarded(vm) == Ok(vm)
  {
    assert RemoveChecked([item]) == [];
  }

  /** Loading twice is loading once. */
  lemma LoadIdempotent(vm: ListViewModel)
    requires LoadShoppingItemsGuarded(vm).Ok?
    ensures LoadShoppingItemsGuarded(LoadShoppingItemsGuarded(vm).value) == LoadShoppingItemsGuarded(vm)
  {
  }

  /** As written, clearing the view model within the debounce interval
      loses the edit: nothing is pending any more, no later tick writes,
      and the file keeps the list from before the edit. */
  lemma ClearedLosesEdit(vm: ListViewModel, item: ShoppingItem, t: int)
    requires Persisted(vm) && vm.saveJob.None?
    ensures var c := Cleared(AddItemToList(vm, item, 0));
      && !Persisted(c)
      && Tick(c, t) == c
      && c.store == vm.store
      && c.shoppingItems == vm.shoppingItems + [item]
  {
    var c := Cleared(AddItemToList(vm, item, 0));
    assert |c.shoppingItems| == |vm.shoppingItems| + 1;
    assert c.store.value.items == vm.shoppingItems;
  }

  /** With the flush, the same edit reaches the file when the view model is
      cleared. */
  lemma ClearedFlushingKeepsEdit(vm: ListViewModel, item: ShoppingItem)
    requires Persisted(vm) && vm.saveJob.None?
    ensures var c := ClearedFlushing(AddItemToList(vm, item, 0));
      && Persisted(c)
      && c.store == Some(ShoppingList(vm.shoppingItems + [item]))
      && c.writes == vm.writes + 1
  {
  }
}
