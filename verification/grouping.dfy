/** The derived view `groupedShoppingItems`: the list grouped by
    `aisleDescription`. Kotlin's `groupBy` fills a `LinkedHashMap`, so the
    keys come out in order of first occurrence and each group keeps the
    items in list order. The map is modelled as a sequence of groups. */
module Grouping {
  import opened Models
  import opened ListRules

  datatype Group = Group(aisle: string, items: seq<ShoppingItem>)

  /** Position of the first item in aisle `k`, or -1 when there is none. */
  function AisleIndex(items: seq<ShoppingItem>, k: string): (r: int)
    ensures -1 <= r < |items|
    ensures r == -1 <==> forall j :: 0 <= j < |items| ==> items[j].aisleDescription != k
    ensures r != -1 ==> items[r].aisleDescription == k
    ensures r != -1 ==> forall j :: 0 <= j < r ==> items[j].aisleDescription != k
  {
    if |items| == 0 then -1
    else if items[0].aisleDescription == k then 0
    else
      var p := AisleIndex(items[1..], k);
      if p == -1 then -1 else p + 1
  }

  lemma AisleIndexSnoc(p: seq<ShoppingItem>, x: ShoppingItem, k: string)
    ensures AisleIndex(p + [x], k) ==
      if AisleIndex(p, k) != -1 then AisleIndex(p, k)
      else if x.aisleDescription == k then |p| else -1
  {
    var items := p + [x];
    assert forall j :: 0 <= j < |p| ==> items[j] == p[j];
    assert items[|p|] == x;
  }

  lemma AisleIndexSnocAll(p: seq<ShoppingItem>, x: ShoppingItem)
    ensures forall k :: AisleIndex(p + [x], k) ==
                        if AisleIndex(p, k) != -1 then AisleIndex(p, k)
                        else if x.aisleDescription == k then |p| else -1
  {
    forall k {
      AisleIndexSnoc(p, x, k);
    }
  }

  /** The distinct aisle descriptions of the list, in order of first occurrence. */
  function AisleKeys(items: seq<ShoppingItem>): (ks: seq<string>)
    ensures forall i, j :: 0 <= i < j < |ks| ==> ks[i] != ks[j]
    ensures forall k :: k in ks <==> AisleIndex(items, k) != -1
    ensures forall i, j :: 0 <= i < j < |ks| ==> AisleIndex(items, ks[i]) < AisleIndex(items, ks[j])
  {
    if |items| == 0 then []
    else
      var p := items[..|items| - 1];
      var a := items[|items| - 1].aisleDescription;
      var ks := AisleKeys(p);
      assert items == p + [items[|items| - 1]];
      AisleIndexSnocAll(p, items[|items| - 1]);
      if a in ks then ks else ks + [a]
  }

  /** The items of aisle `k`, in list order. */
  function InAisle(items: seq<ShoppingItem>, k: string): (r: seq<ShoppingItem>)
    ensures forall i :: 0 <= i < |r| ==> r[i].aisleDescription == k
    ensures IsSubsequence(r, items)
  {
    if |items| == 0 then []
    else
      assert items == [items[0]] + items[1..];
      var rest := InAisle(items[1..], k);
      if items[0].aisleDescription == k then [items[0]] + rest else rest
  }

  /** The items of aisle `k` are, with their multiplicities, exactly the
      list's items that carry `k`. */
  lemma {:induction false} InAisleCounts(items: seq<ShoppingItem>, k: string)
    ensures forall x :: multiset(InAisle(items, k))[x] ==
                        if x.aisleDescription == k then multiset(items)[x] else 0
  {
    if |items| > 0 {
      InAisleCounts(items[1..], k);
      assert items == [items[0]] + items[1..];
    }
  }

  /** An item is in the group of aisle `k` exactly when it is in the list
      and carries `k`. */
  lemma {:induction false} InAisleMembers(items: seq<ShoppingItem>, k: string, x: ShoppingItem)
    ensures x in InAisle(items, k) <==> x in items && x.aisleDescription == k
  {
    if |items| > 0 {
      InAisleMembers(items[1..], k, x);
      assert items == [items[0]] + items[1..];
    }
  }

  lemma {:induction false} InAisleEmpty(items: seq<ShoppingItem>, k: string)
    requires AisleIndex(items, k) == -1
    ensures InAisle(items, k) == []
  {
    if |items| > 0 {
      InAisleEmpty(items[1..], k);
    }
  }

  /** One group per key of `ks`, holding the items of that aisle. */
  function GroupsFor(items: seq<ShoppingItem>, ks: seq<string>): (gs: seq<Group>)
    ensures |gs| == |ks|
    ensures forall i :: 0 <= i < |gs| ==> gs[i] == Group(ks[i], InAisle(items, ks[i]))
  {
    seq(|ks|, i requires 0 <= i < |ks| => Group(ks[i], InAisle(items, ks[i])))
  }

  /** The reference grouping: one group per distinct aisle, keys in order
      of first occurrence. */
  function Groups(items: seq<ShoppingItem>): seq<Group> {
    GroupsFor(items, AisleKeys(items))
  }

  /** The groups' items, concatenated in group order. */
  function Flatten(gs: seq<Group>): seq<ShoppingItem> {
    if |gs| == 0 then [] else gs[0].items + Flatten(gs[1..])
  }

  /** The items of the aisles in `ks`, aisle after aisle. */
  function Collect(items: seq<ShoppingItem>, ks: seq<string>): seq<ShoppingItem> {
    if |ks| == 0 then [] else InAisle(items, ks[0]) + Collect(items, ks[1..])
  }

  /** The `LinkedHashMap` lookup: the position of the group for `aisle`,
      or -1 when there is none yet. */
  method FindGroup(groups: seq<Group>, aisle: string) returns (j: int)
    ensures -1 <= j < |groups|
    ensures j == -1 <==> forall h :: 0 <= h < |groups| ==> groups[h].aisle != aisle
    ensures j != -1 ==> groups[j].aisle == aisle
  {
    j := 0;
    while j < |groups| && groups[j].aisle != aisle
      invariant 0 <= j <= |groups|
      invariant forall h :: 0 <= h < j ==> groups[h].aisle != aisle
    {
      j := j + 1;
    }
    if j == |groups| {
      j := -1;
    }
  }

  /** `shoppingItems.groupBy { it.aisleDescription }`: one pass over the
      list, appending each item to the group of its aisle and opening a
      new group at the end for an aisle not seen before. */
  method GroupBy(items: seq<ShoppingItem>) returns (groups: seq<Group>)
    ensures groups == Groups(items)
  {
    groups := [];
    var n := 0;
    while n < |items|
      invariant 0 <= n <= |items|
      invariant groups == Groups(items[..n])
    {
      var x := items[n];
      var j := FindGroup(groups, x.aisleDescription);
      ghost var prefix := items[..n];
      assert items[..n + 1] == prefix + [x];
      if j == -1 {
        GroupsSnocOpen(prefix, x);
        groups := groups + [Group(x.aisleDescription, [x])];
      } else {
        GroupsSnocJoin(prefix, x, j);
        groups := groups[j := Group(groups[j].aisle, groups[j].items + [x])];
      }
      n := n + 1;
    }
    assert items[..|items|] == items;
  }

  // ---------------------------------------------------------------------
  // Lemmas

  lemma {:induction false} InAisleSnoc(p: seq<ShoppingItem>, x: ShoppingItem, k: string)
    ensures InAisle(p + [x], k) == InAisle(p, k) + (if x.aisleDescription == k then [x] else [])
  {
    if |p| == 0 {
      assert [x][1..] == [];
      assert p + [x] == [x];
    } else {
      var items := p + [x];
      assert items[0] == p[0];
      assert items[1..] == p[1..] + [x];
      InAisleSnoc(p[1..], x, k);
      var head := if p[0].aisleDescription == k then [p[0]] else [];
      assert InAisle(items, k) == head + InAisle(p[1..] + [x], k);
      assert InAisle(p, k) == head + InAisle(p[1..], k);
    }
  }

  /** One more item whose aisle already has a group joins that group. */
  lemma GroupsSnocJoin(p: seq<ShoppingItem>, x: ShoppingItem, j: int)
    requires 0 <= j < |Groups(p)| && Groups(p)[j].aisle == x.aisleDescription
    ensures Groups(p + [x]) == Groups(p)[j := Group(x.aisleDescription, Groups(p)[j].items + [x])]
  {
    var items := p + [x];
    assert items[..|items| - 1] == p;
    var ks := AisleKeys(p);
    assert ks[j] == x.aisleDescription;
    assert AisleKeys(items) == ks;
    var gs := Groups(p);
    var gs' := Groups(items);
    var g := Group(x.aisleDescription, gs[j].items + [x]);
    assert |gs'| == |gs|;
    forall i | 0 <= i < |gs| ensures gs'[i] == if i == j then g else gs[i] {
      InAisleSnoc(p, x, ks[i]);
    }
    assert gs' == gs[j := g];
  }

  /** One more item of an aisle without a group opens a new last group. */
  lemma GroupsSnocOpen(p: seq<ShoppingItem>, x: ShoppingItem)
    requires forall j :: 0 <= j < |Groups(p)| ==> Groups(p)[j].aisle != x.aisleDescription
    ensures Groups(p + [x]) == Groups(p) + [Group(x.aisleDescription, [x])]
  {
    var items := p + [x];
    assert items[..|items| - 1] == p;
    var ks := AisleKeys(p);
    var a := x.aisleDescription;
    forall j | 0 <= j < |ks| ensures ks[j] != a {
      assert Groups(p)[j].aisle == ks[j];
    }
    assert AisleKeys(items) == ks + [a];
    InAisleEmpty(p, a);
    InAisleSnoc(p, x, a);
    var gs := Groups(p);
    var gs' := Groups(items);
    forall i | 0 <= i < |gs| ensures gs'[i] == gs[i] {
      InAisleSnoc(p, x, ks[i]);
    }
    assert gs'[|gs|] == Group(a, [x]);
  }

  lemma {:induction false} FlattenGroupsFor(items: seq<ShoppingItem>, ks: seq<string>)
    ensures Flatten(GroupsFor(items, ks)) == Collect(items, ks)
  {
    if |ks| > 0 {
      FlattenGroupsFor(items, ks[1..]);
      assert GroupsFor(items, ks)[1..] == GroupsFor(items, ks[1..]);
    }
  }

  lemma {:induction false} CollectCounts(items: seq<ShoppingItem>, ks: seq<string>)
    requires forall i, j :: 0 <= i < j < |ks| ==> ks[i] != ks[j]
    ensures forall x :: multiset(Collect(items, ks))[x] ==
                        if x.aisleDescription in ks then multiset(items)[x] else 0
  {
    if |ks| > 0 {
      CollectCounts(items, ks[1..]);
      InAisleCounts(items, ks[0]);
      assert ks == [ks[0]] + ks[1..];
    }
  }

  /** Each group's key is the aisle of some item of the list. */
  lemma KeysComeFromItems(items: seq<ShoppingItem>)
    ensures forall g :: 0 <= g < |Groups(items)| ==>
      exists n :: 0 <= n < |items| && items[n].aisleDescription == Groups(items)[g].aisle
  {
    var gs := Groups(items);
    var ks := AisleKeys(items);
    forall g | 0 <= g < |gs|
      ensures exists n :: 0 <= n < |items| && items[n].aisleDescription == gs[g].aisle
    {
      assert gs[g].aisle == ks[g];
      var n := AisleIndex(items, ks[g]);
      assert items[n].aisleDescription == ks[g];
    }
  }

  /** Every key is the aisle of some item, keys are distinct, appear in order
      of first occurrence, and every aisle of the list has a key. */
  lemma GroupKeys(items: seq<ShoppingItem>)
    ensures var gs := Groups(items);
      && (forall i, j :: 0 <= i < j < |gs| ==> gs[i].aisle != gs[j].aisle)
      && (forall i, j :: 0 <= i < j < |gs| ==> AisleIndex(items, gs[i].aisle) < AisleIndex(items, gs[j].aisle))
      && (forall n :: 0 <= n < |items| ==> exists g :: 0 <= g < |gs| && gs[g].aisle == items[n].aisleDescription)
      && (forall g :: 0 <= g < |gs| ==> exists n :: 0 <= n < |items| && items[n].aisleDescription == gs[g].aisle)
  {
    var gs := Groups(items);
    var ks := AisleKeys(items);
    KeysComeFromItems(items);
    forall n | 0 <= n < |items|
      ensures exists g :: 0 <= g < |gs| && gs[g].aisle == items[n].aisleDescription
    {
      assert AisleIndex(items, items[n].aisleDescription) != -1;
      var g :| 0 <= g < |ks| && ks[g] == items[n].aisleDescription;
      assert gs[g].aisle == ks[g];
    }
  }

  /** Each group holds exactly the items of its aisle, in list order, and is
      never empty. */
  lemma GroupContents(items: seq<ShoppingItem>)
    ensures var gs := Groups(items);
      forall g :: 0 <= g < |gs| ==>
        && |gs[g].items| > 0
        && IsSubsequence(gs[g].items, items)
        && (forall x :: multiset(gs[g].items)[x] ==
              if x.aisleDescription == gs[g].aisle then multiset(items)[x] else 0)
  {
    var gs := Groups(items);
    forall g | 0 <= g < |gs|
      ensures |gs[g].items| > 0
      ensures forall x :: multiset(gs[g].items)[x] ==
                          if x.aisleDescription == gs[g].aisle then multiset(items)[x] else 0
    {
      var k := gs[g].aisle;
      InAisleCounts(items, k);
      var n := AisleIndex(items, k);
      assert items[n] in items;
      assert multiset(gs[g].items)[items[n]] == multiset(items)[items[n]] > 0;
    }
  }

  /** The concatenated groups are a permutation of the list. */
  lemma GroupsPermutation(items: seq<ShoppingItem>)
    ensures multiset(Flatten(Groups(items))) == multiset(items)
  {
    var ks := AisleKeys(items);
    FlattenGroupsFor(items, ks);
    CollectCounts(items, ks);
    forall x ensures multiset(Collect(items, ks))[x] == multiset(items)[x] {
      if x in items {
        var n :| 0 <= n < |items| && items[n] == x;
        assert AisleIndex(items, x.aisleDescription) != -1;
      }
    }
    assert multiset(Collect(items, ks)) == multiset(items);
  }

  /** Every item of the list lands in exactly one group. */
  lemma EachItemInOneGroup(items: seq<ShoppingItem>, n: int)
    requires 0 <= n < |items|
    ensures var gs := Groups(items);
      && (exists g :: 0 <= g < |gs| && items[n] in gs[g].items)
      && (forall g, h :: 0 <= g < |gs| && 0 <= h < |gs| && items[n] in gs[g].items && items[n] in gs[h].items ==> g == h)
  {
    var gs := Groups(items);
    var ks := AisleKeys(items);
    var x := items[n];
    var a := x.aisleDescription;
    assert x in items;
    assert AisleIndex(items, a) != -1;
    var g0 :| 0 <= g0 < |ks| && ks[g0] == a;
    InAisleMembers(items, a, x);
    assert gs[g0].items == InAisle(items, a);
    forall g, h | 0 <= g < |gs| && 0 <= h < |gs| && x in gs[g].items && x in gs[h].items
      ensures g == h
    {
      InAisleMembers(items, ks[g], x);
      InAisleMembers(items, ks[h], x);
    }
  }

  /** The grouping of three items over two aisles. */
  lemma DairyAndProduce(a: ShoppingItem, b: ShoppingItem, c: ShoppingItem)
    requires a.aisleDescription == "Dairy" && c.aisleDescription == "Dairy"
    requires b.aisleDescription == "Produce"
    ensures Groups([a, b, c]) == [Group("Dairy", [a, c]), Group("Produce", [b])]
  {
    var items := [a, b, c];
    assert [a][..0] == [];
    assert AisleKeys([a]) == ["Dairy"];
    assert [a, b][..1] == [a];
    assert AisleKeys([a, b]) == ["Dairy", "Produce"];
    assert items[..2] == [a, b];
    assert AisleKeys(items) == ["Dairy", "Produce"];
    assert [c][1..] == [];
    assert InAisle([c], "Dairy") == [c] && InAisle([c], "Produce") == [];
    assert [b, c][1..] == [c];
    assert InAisle([b, c], "Dairy") == [c] && InAisle([b, c], "Produce") == [b];
    assert items[1..] == [b, c];
    assert InAisle(items, "Dairy") == [a, c];
    assert InAisle(items, "Produce") == [b];
  }
}
