/** SelectorConditional<T>: an ordered list of guards, each selecting an object; the
    first guard that holds wins, and the default item is used when none holds. */
module SelectorConditional {
  import opened Base
  import opened Types
  import opened Objects

  /** The node `new SelectorConditional<ty>()` builds, with the type-name settings of
      its object initializer: no guards and no default. */
  function NewNode(ty: TypeId, typeName: TypeName): (n: Node)
    ensures n.Conditional? && n.ty == ty && n.typeName == typeName
    ensures n.items == [] && n.defaultItem.None? && Children(n) == {}
  {
    Conditional(ty, typeName, [], None)
  }

  /** Items.FirstOrDefault(entry => entry.ConditionTest(obj)), as the position of the
      first guard that holds; guards after it are not evaluated. */
  function FirstMatch(items: seq<ConditionalItem>, obj: Value): (k: Option<nat>)
    ensures k.Some? ==> k.value < |items| && items[k.value].conditionTest(obj)
    ensures k.Some? ==> forall j :: 0 <= j < k.value ==> !items[j].conditionTest(obj)
    ensures k.None? <==> forall j :: 0 <= j < |items| ==> !items[j].conditionTest(obj)
  {
    if items == [] then None
    else if items[0].conditionTest(obj) then Some(0)
    else
      match FirstMatch(items[1..], obj)
      case None => None
      case Some(k) => Some(k + 1)
  }

  /** FindItem(obj): the object of the first guard that holds, otherwise the default
      item (None when there is none). */
  function FindItem(n: Node, obj: Value): (r: Option<Ref>)
    requires n.Conditional?
    ensures FirstMatch(n.items, obj).Some? ==> r == Some(n.items[FirstMatch(n.items, obj).value].item)
    ensures FirstMatch(n.items, obj).None? ==> r == n.defaultItem
    ensures r.Some? ==> r.value in Children(n)
  {
    match FirstMatch(n.items, obj)
    case Some(k) => Some(n.items[k].item)
    case None => n.defaultItem
  }

  /** Appending a guard never changes the choice for an object an earlier guard
      accepts; for the other objects the new guard is consulted last. */
  lemma {:induction false} AppendKeepsEarlierMatches(items: seq<ConditionalItem>, x: ConditionalItem, obj: Value)
    ensures FirstMatch(items, obj).Some? ==> FirstMatch(items + [x], obj) == FirstMatch(items, obj)
    ensures FirstMatch(items, obj).None? ==>
              FirstMatch(items + [x], obj) == if x.conditionTest(obj) then Some(|items|) else None
  {
    if items != [] {
      assert (items + [x])[1..] == items[1..] + [x];
      AppendKeepsEarlierMatches(items[1..], x, obj);
    }
  }

  /** The constructor, with the type-name settings of the object initializer. */
  method New(heap: Heap, ty: TypeId, typeName: TypeName) returns (r: Ref)
    requires heap.graph.Valid()
    modifies heap
    ensures heap.graph.Valid()
    ensures r == old(heap.graph.next)
    ensures heap.graph == old(heap.graph).Extend(NewNode(ty, typeName))
  {
    r := heap.Alloc(NewNode(ty, typeName));
  }

  /** AddConditionItem(condition, item): one guard appended at the end of the list of
      conditional r; the earlier guards and the default are untouched. */
  method AddConditionItem(heap: Heap, r: Ref, condition: Condition, item: Ref)
    requires heap.graph.Valid() && r in heap.graph.objects && heap.graph.objects[r].Conditional?
    requires r < item < heap.graph.next
    modifies heap
    ensures heap.graph.Valid()
    ensures var n := old(heap.graph.objects[r]);
            heap.graph == old(heap.graph).Set(r, n.(items := n.items + [ConditionalItem(condition, item)]))
  {
    var n := heap.graph.objects[r];
    var items := n.items + [ConditionalItem(condition, item)];
    assert forall i :: 0 <= i < |n.items| ==> items[i] == n.items[i];
    assert items[|n.items|].item == item;
    assert Children(n.(items := items)) == Children(n) + {item};
    heap.Update(r, n.(items := items));
  }

  /** The DefaultItem setter: conditional r now falls back to item; its guards are
      untouched. */
  method SetDefaultItem(heap: Heap, r: Ref, item: Ref)
    requires heap.graph.Valid() && r in heap.graph.objects && heap.graph.objects[r].Conditional?
    requires r < item < heap.graph.next
    modifies heap
    ensures heap.graph.Valid()
    ensures heap.graph == old(heap.graph).Set(r, WithDefault(old(heap.graph.objects[r]), Some(item)))
  {
    var n := heap.graph.objects[r];
    assert Children(WithDefault(n, Some(item))) <= Children(n) + {item};
    heap.Update(r, WithDefault(n, Some(item)));
  }
}
