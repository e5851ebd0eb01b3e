/** The list rules of `ListViewModel`, as pure functions over the ordered
    item sequence: lookup by product id, append, removal of checked items,
    in-place flag and quantity updates, and the removal of an item whose
    quantity would drop to zero. Scheduling the save is not part of these
    rules; the view model adds it (module ViewModels). */
module ListRules {
  import opened Models

  /** No two items share a `productId`. */
  predicate UniqueIds(items: seq<ShoppingItem>) {
    forall i, j :: 0 <= i < j < |items| ==> items[i].productId != items[j].productId
  }

  /** Every quantity is at least one: a zero is never held. */
  predicate AllPositive(items: seq<ShoppingItem>) {
    forall i :: 0 <= i < |items| ==> items[i].quantity >= 1
  }

  /** The list invariant the screens rely on. */
  predicate Valid(items: seq<ShoppingItem>) {
    UniqueIds(items) && AllPositive(items)
  }

  /** `a` is `b` with some elements dropped and the others kept in order. */
  predicate IsSubsequence<T(==)>(a: seq<T>, b: seq<T>) {
    if |b| == 0 then |a| == 0
    else (|a| > 0 && a[0] == b[0] && IsSubsequence(a[1..], b[1..])) || IsSubsequence(a, b[1..])
  }

  /** `indexOfFirst { it.productId == id }`: the position of the first item
      carrying `id`, or -1 when there is none. */
  function IndexOfFirst(items: seq<ShoppingItem>, id: string): (r: int)
    ensures -1 <= r < |items|
    ensures r == -1 <==> forall j :: 0 <= j < |items| ==> items[j].productId != id
    ensures r != -1 ==> items[r].productId == id
    ensures r != -1 ==> forall j :: 0 <= j < r ==> items[j].productId != id
  {
    if |items| == 0 then -1
    else if items[0].productId == id then 0
    else
      var k := IndexOfFirst(items[1..], id);
      if k == -1 then -1 else k + 1
  }

  /** `shoppingItems.add(item)`: no duplicate check. */
  function Append(items: seq<ShoppingItem>, item: ShoppingItem): (r: seq<ShoppingItem>)
    ensures |r| == |items| + 1
    ensures r[..|items|] == items && r[|items|] == item
  {
    items + [item]
  }

  /** `shoppingItems.removeAll { it.checked == true }`. */
  function RemoveChecked(items: seq<ShoppingItem>): (r: seq<ShoppingItem>)
    ensures forall i :: 0 <= i < |r| ==> !r[i].checked
    ensures forall x :: multiset(r)[x] == if x.checked then 0 else multiset(items)[x]
    ensures IsSubsequence(r, items)
  {
    if |items| == 0 then []
    else
      assert items == [items[0]] + items[1..];
      var rest := RemoveChecked(items[1..]);
      if items[0].checked then rest else [items[0]] + rest
  }

  /** The list part of `updateCheckedStatus`: the first item carrying `id`
      is replaced by its copy with the new flag. */
  function SetChecked(items: seq<ShoppingItem>, id: string, checked: bool): (r: seq<ShoppingItem>)
    ensures IndexOfFirst(items, id) == -1 ==> r == items
    ensures |r| == |items|
    ensures forall j :: 0 <= j < |r| ==> SameProduct(r[j], items[j]) && r[j].quantity == items[j].quantity
    ensures forall j :: 0 <= j < |r| ==>
      r[j].checked == if j == IndexOfFirst(items, id) then checked else items[j].checked
  {
    var i := IndexOfFirst(items, id);
    if i == -1 then items else items[i := WithChecked(items[i], checked)]
  }

  /** The list part of `increaseQuantity`. */
  function Increment(items: seq<ShoppingItem>, id: string): (r: seq<ShoppingItem>)
    ensures IndexOfFirst(items, id) == -1 ==> r == items
    ensures |r| == |items|
    ensures forall j :: 0 <= j < |r| ==> SameProduct(r[j], items[j]) && r[j].checked == items[j].checked
    ensures forall j :: 0 <= j < |r| ==>
      r[j].quantity == if j == IndexOfFirst(items, id) then items[j].quantity + 1 else items[j].quantity
  {
    var i := IndexOfFirst(items, id);
    if i == -1 then items else items[i := WithQuantity(items[i], items[i].quantity + 1)]
  }

  /** The list part of `decreaseQuantity`: an item whose quantity would drop
      to zero or below is removed instead of being decremented. */
  function Decrement(items: seq<ShoppingItem>, id: string): (r: seq<ShoppingItem>)
    ensures IndexOfFirst(items, id) == -1 ==> r == items
    ensures var i := IndexOfFirst(items, id);
      i != -1 && items[i].quantity <= 1 ==>
        && |r| == |items| - 1
        && (forall j :: 0 <= j < i ==> r[j] == items[j])
        && (forall j :: i <= j < |r| ==> r[j] == items[j + 1])
        && IsSubsequence(r, items)
        && multiset(r) + multiset{items[i]} == multiset(items)
    ensures var i := IndexOfFirst(items, id);
      i != -1 && items[i].quantity > 1 ==>
        && |r| == |items|
        && (forall j :: 0 <= j < |r| ==> SameProduct(r[j], items[j]) && r[j].checked == items[j].checked)
        && (forall j :: 0 <= j < |r| ==>
              r[j].quantity == if j == i then items[j].quantity - 1 else items[j].quantity)
  {
    var i := IndexOfFirst(items, id);
    if i == -1 then items
    else if items[i].quantity - 1 <= 0 then
      DropOne(items, i);
      items[..i] + items[i + 1..]
    else items[i := WithQuantity(items[i], items[i].quantity - 1)]
  }

  // ---------------------------------------------------------------------
  // Subsequences

  lemma {:induction false} SubsequenceRefl<T>(s: seq<T>)
    ensures IsSubsequence(s, s)
  {
    if |s| > 0 {
      SubsequenceRefl(s[1..]);
    }
  }

  /** Dropping the element at `i` leaves a subsequence. */
  lemma {:induction false} SubsequenceDropOne<T>(s: seq<T>, i: int)
    requires 0 <= i < |s|
    ensures IsSubsequence(s[..i] + s[i + 1..], s)
  {
    var a := s[..i] + s[i + 1..];
    if i == 0 {
      assert a == s[1..];
      SubsequenceRefl(s[1..]);
    } else {
      SubsequenceDropOne(s[1..], i - 1);
      assert a[0] == s[0];
      assert a[1..] == s[1..][..i - 1] + s[1..][i..];
    }
  }

  /** Dropping the element at `i` removes one copy of it, keeps every other
      element with its multiplicity, and keeps the order. */
  lemma DropOne<T>(s: seq<T>, i: int)
    requires 0 <= i < |s|
    ensures IsSubsequence(s[..i] + s[i + 1..], s)
    ensures multiset(s[..i] + s[i + 1..]) + multiset{s[i]} == multiset(s)
  {
    SubsequenceDropOne(s, i);
    DropOneCounts(s, i);
  }

  lemma DropOneCounts<T>(s: seq<T>, i: int)
    requires 0 <= i < |s|
    ensures multiset(s[..i] + s[i + 1..]) + multiset{s[i]} == multiset(s)
  {
    assert s == s[..i] + ([s[i]] + s[i + 1..]);
  }

  lemma {:induction false} SubsequenceMembers<T>(a: seq<T>, b: seq<T>)
    requires IsSubsequence(a, b)
    ensures forall x :: x in a ==> x in b
  {
    if |b| > 0 {
      if |a| > 0 && a[0] == b[0] && IsSubsequence(a[1..], b[1..]) {
        SubsequenceMembers(a[1..], b[1..]);
        assert a == [a[0]] + a[1..];
      } else {
        SubsequenceMembers(a, b[1..]);
      }
    }
  }

  /** Dropping items never breaks the list invariant. */
  lemma {:induction false} SubsequenceKeepsValid(a: seq<ShoppingItem>, b: seq<ShoppingItem>)
    requires IsSubsequence(a, b) && Valid(b)
    ensures Valid(a)
  {
    SubsequenceMembers(a, b);
    assert AllPositive(a) by {
      forall i | 0 <= i < |a| ensures a[i].quantity >= 1 {
        assert a[i] in b;
      }
    }
    if |b| > 0 {
      assert Valid(b[1..]);
      if |a| > 0 && a[0] == b[0] && IsSubsequence(a[1..], b[1..]) {
        SubsequenceKeepsValid(a[1..], b[1..]);
        SubsequenceMembers(a[1..], b[1..]);
        forall i, j | 0 <= i < j < |a| ensures a[i].productId != a[j].productId {
          if i == 0 {
            assert a[j] == a[1..][j - 1];
            assert a[j] in a[1..];
            var k :| 0 <= k < |b[1..]| && b[1..][k] == a[j];
            assert b[k + 1] == a[j];
          } else {
            assert a[i] == a[1..][i - 1] && a[j] == a[1..][j - 1];
          }
        }
      } else {
        SubsequenceKeepsValid(a, b[1..]);
      }
    }
  }

  // ---------------------------------------------------------------------
  // Properties of the rules

  /** Two lists with the same ids position by position answer every
      lookup alike. */
  lemma IndexOfFirstFrame(a: seq<ShoppingItem>, b: seq<ShoppingItem>, id: string)
    requires |a| == |b|
    requires forall j :: 0 <= j < |a| ==> a[j].productId == b[j].productId
    ensures IndexOfFirst(a, id) == IndexOfFirst(b, id)
  {
  }

  /** Appending keeps the ids unique exactly when the id was absent:
      the rule itself does no duplicate check. */
  lemma AppendKeepsUnique(items: seq<ShoppingItem>, item: ShoppingItem)
    requires UniqueIds(items)
    ensures UniqueIds(Append(items, item)) <==> IndexOfFirst(items, item.productId) == -1
  {
    var r := Append(items, item);
    if IndexOfFirst(items, item.productId) != -1 {
      var k := IndexOfFirst(items, item.productId);
      assert r[k].productId == r[|items|].productId;
    }
  }

  /** Appending keeps every quantity positive exactly when the new item's is. */
  lemma AppendKeepsPositive(items: seq<ShoppingItem>, item: ShoppingItem)
    requires AllPositive(items)
    ensures AllPositive(Append(items, item)) <==> item.quantity >= 1
  {
    var r := Append(items, item);
    assert r[|items|] == item;
  }

  /** A list without checked items is left as it is. */
  lemma {:induction false} RemoveCheckedFixpoint(items: seq<ShoppingItem>)
    requires forall i :: 0 <= i < |items| ==> !items[i].checked
    ensures RemoveChecked(items) == items
  {
    if |items| > 0 {
      RemoveCheckedFixpoint(items[1..]);
      assert items == [items[0]] + items[1..];
    }
  }

  /** Clearing checked items twice is clearing them once. */
  lemma RemoveCheckedIdempotent(items: seq<ShoppingItem>)
    ensures RemoveChecked(RemoveChecked(items)) == RemoveChecked(items)
  {
    RemoveCheckedFixpoint(RemoveChecked(items));
  }

  lemma RemoveCheckedKeepsValid(items: seq<ShoppingItem>)
    requires Valid(items)
    ensures Valid(RemoveChecked(items))
  {
    SubsequenceKeepsValid(RemoveChecked(items), items);
  }

  lemma SetCheckedKeepsValid(items: seq<ShoppingItem>, id: string, checked: bool)
    requires Valid(items)
    ensures Valid(SetChecked(items, id, checked))
  {
    var r := SetChecked(items, id, checked);
    assert forall j :: 0 <= j < |r| ==> r[j].productId == items[j].productId;
  }

  /** Setting the flag a second time changes nothing. */
  lemma SetCheckedIdempotent(items: seq<ShoppingItem>, id: string, checked: bool)
    ensures SetChecked(SetChecked(items, id, checked), id, checked) == SetChecked(items, id, checked)
  {
    var r := SetChecked(items, id, checked);
    IndexOfFirstFrame(r, items, id);
  }

  lemma IncrementKeepsValid(items: seq<ShoppingItem>, id: string)
    requires Valid(items)
    ensures Valid(Increment(items, id))
  {
    var r := Increment(items, id);
    assert forall j :: 0 <= j < |r| ==> r[j].productId == items[j].productId;
  }

  lemma DecrementKeepsValid(items: seq<ShoppingItem>, id: string)
    requires Valid(items)
    ensures Valid(Decrement(items, id))
  {
    var i := IndexOfFirst(items, id);
    var r := Decrement(items, id);
    if i != -1 && items[i].quantity <= 1 {
      SubsequenceKeepsValid(r, items);
    } else if i != -1 {
      assert forall j :: 0 <= j < |r| ==> r[j].productId == items[j].productId;
    }
  }

  /** Decrementing an item of quantity one removes it: one item fewer, and
      with unique ids, none carrying `id` is left. */
  lemma DecrementRemovesItem(items: seq<ShoppingItem>, id: string)
    requires UniqueIds(items)
    requires IndexOfFirst(items, id) != -1 && items[IndexOfFirst(items, id)].quantity <= 1
    ensures |Decrement(items, id)| == |items| - 1
    ensures forall x :: x in Decrement(items, id) ==> x.productId != id
  {
    var i := IndexOfFirst(items, id);
    assert Decrement(items, id) == items[..i] + items[i + 1..];
    DropOnlyCarrier(items, i, id);
  }

  /** With unique ids, dropping the item carrying `id` leaves none that
      carries it. */
  lemma DropOnlyCarrier(items: seq<ShoppingItem>, i: int, id: string)
    requires UniqueIds(items) && 0 <= i < |items| && items[i].productId == id
    ensures forall x :: x in items[..i] + items[i + 1..] ==> x.productId != id
  {
    var r := items[..i] + items[i + 1..];
    forall x | x in r ensures x.productId != id {
      var k :| 0 <= k < |r| && r[k] == x;
      if k < i {
        assert x == items[k];
      } else {
        assert x == items[k + 1];
      }
    }
  }

  /** With an equal record twice in the list, removal takes the first copy:
      `[x, y, x]` becomes `[y, x]`, not `[x, y]`. */
  lemma DecrementRemovesFirstCopy(x: ShoppingItem, y: ShoppingItem, id: string)
    requires x.productId == id && x.quantity == 1 && y.productId != id
    ensures Decrement([x, y, x], id) == [y, x]
  {
    assert IndexOfFirst([x, y, x], id) == 0;
  }

  /** Replacing one item by another with the same id answers every lookup
      alike. */
  lemma IndexOfFirstUpdate(items: seq<ShoppingItem>, i: int, x: ShoppingItem, id: string)
    requires 0 <= i < |items| && x.productId == items[i].productId
    ensures IndexOfFirst(items[i := x], id) == IndexOfFirst(items, id)
  {
    IndexOfFirstFrame(items[i := x], items, id);
  }

  /** Writing back the element already at `i` changes nothing. */
  lemma UpdateSame<T>(s: seq<T>, i: int)
    requires 0 <= i < |s|
    ensures s[i := s[i]] == s
  {
  }

  /** Two writes at the same index: the second wins. */
  lemma UpdateTwice<T>(s: seq<T>, i: int, a: T, b: T)
    requires 0 <= i < |s|
    ensures s[i := a][i := b] == s[i := b]
  {
  }

  /** Increasing the quantity of the item at `i`, the first carrying `id`,
      replaces it in place. */
  lemma IncrementAt(items: seq<ShoppingItem>, i: int, id: string)
    requires 0 <= i < |items| && IndexOfFirst(items, id) == i
    ensures Increment(items, id) == items[i := WithQuantity(items[i], items[i].quantity + 1)]
  {
  }

  /** Decreasing in place the item at `i`, the first carrying `id`. */
  lemma DecrementInPlace(items: seq<ShoppingItem>, i: int, id: string)
    requires 0 <= i < |items| && IndexOfFirst(items, id) == i && items[i].quantity > 1
    ensures Decrement(items, id) == items[i := WithQuantity(items[i], items[i].quantity - 1)]
  {
  }

  /** The round trip for an item that is present. */
  lemma IncrementThenDecrementAt(items: seq<ShoppingItem>, id: string, i: int)
    requires 0 <= i < |items| && IndexOfFirst(items, id) == i && items[i].quantity >= 1
    ensures Decrement(Increment(items, id), id) == items
  {
    var up := WithQuantity(items[i], items[i].quantity + 1);
    var mid := items[i := up];
    IncrementAt(items, i, id);
    IndexOfFirstUpdate(items, i, up, id);
    DecrementInPlace(mid, i, id);
    assert WithQuantity(mid[i], mid[i].quantity - 1) == items[i];
    UpdateTwice(items, i, up, items[i]);
    UpdateSame(items, i);
  }

  /** Increasing and then decreasing the quantity restores the list, for an
      item whose quantity is at least one. */
  lemma IncrementThenDecrement(items: seq<ShoppingItem>, id: string)
    requires IndexOfFirst(items, id) != -1 ==> items[IndexOfFirst(items, id)].quantity >= 1
    ensures Decrement(Increment(items, id), id) == items
  {
    var i := IndexOfFirst(items, id);
    if i != -1 {
      IncrementThenDecrementAt(items, id, i);
    } else {
      assert Increment(items, id) == items;
    }
  }

  /** The reverse round trip for an item that is present. */
  lemma DecrementThenIncrementAt(items: seq<ShoppingItem>, id: string, i: int)
    requires 0 <= i < |items| && IndexOfFirst(items, id) == i && items[i].quantity >= 2
    ensures Increment(Decrement(items, id), id) == items
  {
    var down := WithQuantity(items[i], items[i].quantity - 1);
    var mid := items[i := down];
    DecrementInPlace(items, i, id);
    IndexOfFirstUpdate(items, i, down, id);
    IncrementAt(mid, i, id);
    assert WithQuantity(mid[i], mid[i].quantity + 1) == items[i];
    UpdateTwice(items, i, down, items[i]);
    UpdateSame(items, i);
  }

  /** Decreasing and then increasing restores the list when the decrease
      does not remove the item. */
  lemma DecrementThenIncrement(items: seq<ShoppingItem>, id: string)
    requires IndexOfFirst(items, id) != -1 ==> items[IndexOfFirst(items, id)].quantity >= 2
    ensures Increment(Decrement(items, id), id) == items
  {
    var i := IndexOfFirst(items, id);
    if i != -1 {
      DecrementThenIncrementAt(items, id, i);
    } else {
      assert Decrement(items, id) == items;
    }
  }
}
