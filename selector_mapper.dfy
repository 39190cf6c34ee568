/** SelectorMapper<T>: a node that dispatches on the runtime type (or, for a value type
    T, the exact value) of the object through its store, falling back to its default
    item. SelectorMapperSub<TParent, T> is the same node with an accessor that first
    derives the object to dispatch on; it is built by the ConfigureDefault overload
    with an accessor and by the relayers. */
module SelectorMapper {
  import opened Base
  import opened Types
  import opened Mappers
  import opened Objects

  /** The node `new SelectorMapper<ty>(strategy)` builds, with the type-name settings
      of its object initializer, or `new SelectorMapperSub<_, ty>(accessor, strategy)`
      when sub holds the accessor: an empty store from the factory and no default. */
  function NewNode(h: Hierarchy, ty: TypeId, strategy: LookupStrategy, typeName: TypeName, sub: Option<Extractor>): (n: Node)
    ensures n.Selector? && n.ty == ty && n.typeName == typeName && n.subAccessor == sub
    ensures n.mapper.ValueMapper? <==> IsValueType(h, ty)
    ensures n.mapper.TypeMapper? ==> n.mapper.strategy == strategy
    ensures n.defaultItem.None? && Children(n) == {}
  {
    Selector(ty, typeName, GetMapper(h, ty, strategy), None, sub)
  }

  /** FindItem(object): the store's item for the object if it has one, otherwise the
      default item (None when there is none). A store failure propagates. */
  function FindItem(h: Hierarchy, n: Node, obj: Value): (r: Result<Option<Ref>>)
    requires n.Selector?
    ensures r.Err? <==> FindValue(h, n.mapper, obj).Err?
    ensures r.Ok? && FindValue(h, n.mapper, obj).value.Some? ==> r.value == FindValue(h, n.mapper, obj).value
    ensures r.Ok? && FindValue(h, n.mapper, obj).value.None? ==> r.value == n.defaultItem
    ensures r.Ok? && r.value.Some? ==> r.value.value in Children(n)
  {
    match FindValue(h, n.mapper, obj)
    case Err(e) => Err(e)
    case Ok(found) => if found.Some? then Ok(found) else Ok(n.defaultItem)
  }

  /** FindItem(Type): the store's item for the type if it has one, otherwise the
      default item. */
  function FindItemForType(h: Hierarchy, n: Node, t: TypeId): (r: Option<Ref>)
    requires n.Selector?
    ensures FindType(h, n.mapper, t).Some? ==> r == FindType(h, n.mapper, t)
    ensures FindType(h, n.mapper, t).None? ==> r == n.defaultItem
    ensures r.Some? ==> r.value in Children(n)
  {
    var found := FindType(h, n.mapper, t);
    if found.Some? then found else n.defaultItem
  }

  /** A default is consulted only when the store finds nothing: two nodes that differ
      only in their default select the same item for every object the store maps. */
  lemma DefaultOnlyWhenUnmatched(h: Hierarchy, n: Node, d: Option<Ref>, obj: Value)
    requires n.Selector? && FindValue(h, n.mapper, obj).Ok? && FindValue(h, n.mapper, obj).value.Some?
    ensures FindItem(h, WithDefault(n, d), obj) == FindItem(h, n, obj)
  {
  }

  /** The constructor: a new selector for type ty with an empty store for the requested
      strategy (ConcreteOnly unless stated) and no type name. */
  method New(heap: Heap, ty: TypeId, strategy: LookupStrategy := ConcreteOnly) returns (r: Ref)
    requires heap.graph.Valid()
    modifies heap
    ensures heap.graph.Valid()
    ensures r == old(heap.graph.next)
    ensures heap.graph == old(heap.graph).Extend(NewNode(heap.types, ty, strategy, TypeName(None, None), None))
  {
    r := heap.Alloc(NewNode(heap.types, ty, strategy, TypeName(None, None), None));
  }

  /** Configure<TSub>(configure, strategy, typeNameResourceKey, typeNameAccessor): a new
      selector for tsub with the given strategy and type name, added to the store of
      selector r under key tsub. The result is the new selector, which the configure
      action then receives. Adding fails on a key already present, and on a value store,
      which does not accept type keys; selector r is then unchanged and the new selector
      is left unreferenced. */
  method Configure(heap: Heap, r: Ref, tsub: TypeId, strategy: LookupStrategy := ConcreteOnly,
                   typeNameResourceKey: Option<string> := Some(""), typeNameAccessor: Option<Accessor> := None)
    returns (result: Result<Ref>)
    requires heap.graph.Valid() && r in heap.graph.objects && heap.graph.objects[r].Selector?
    modifies heap
    ensures heap.graph.Valid()
    ensures var n, child := old(heap.graph.objects[r]), old(heap.graph.next);
            var added := AddType(n.mapper, tsub, child);
            var extended := old(heap.graph).Extend(NewNode(heap.types, tsub, strategy, TypeName(typeNameResourceKey, typeNameAccessor), None));
            && (added.Err? ==> result == Err(added.error) && heap.graph == extended)
            && (added.Ok? ==> result == Ok(child) && heap.graph == extended.Set(r, n.(mapper := added.value)))
  {
    var n := heap.graph.objects[r];
    var child := heap.Alloc(NewNode(heap.types, tsub, strategy, TypeName(typeNameResourceKey, typeNameAccessor), None));
    var added := AddType(n.mapper, tsub, child);
    if added.Err? {
      return Err(added.error);
    }
    assert Children(n.(mapper := added.value)) == Children(n) + {child};
    heap.Update(r, n.(mapper := added.value));
    result := Ok(child);
  }

  /** SetDefaultMappedItem(item): selector r now falls back to item; its store is
      untouched. */
  method SetDefaultMappedItem(heap: Heap, r: Ref, item: Ref)
    requires heap.graph.Valid() && r in heap.graph.objects && heap.graph.objects[r].Selector?
    requires r < item < heap.graph.next
    modifies heap
    ensures heap.graph.Valid()
    ensures heap.graph == old(heap.graph).Set(r, WithDefault(old(heap.graph.objects[r]), Some(item)))
  {
    var n := heap.graph.objects[r];
    assert Children(WithDefault(n, Some(item))) <= Children(n) + {item};
    heap.Update(r, WithDefault(n, Some(item)));
  }

  /** ConfigureDefault<TSub>(configure, strategy): a new selector for tsub becomes the
      default of selector r; the result is the new selector. */
  method ConfigureDefault(heap: Heap, r: Ref, tsub: TypeId, strategy: LookupStrategy := ConcreteOnly) returns (child: Ref)
    requires heap.graph.Valid() && r in heap.graph.objects && heap.graph.objects[r].Selector?
    modifies heap
    ensures heap.graph.Valid()
    ensures child == old(heap.graph.next)
    ensures heap.graph == old(heap.graph).Extend(NewNode(heap.types, tsub, strategy, TypeName(None, None), None))
                                         .Set(r, WithDefault(old(heap.graph.objects[r]), Some(child)))
  {
    child := heap.Alloc(NewNode(heap.types, tsub, strategy, TypeName(None, None), None));
    SetDefaultMappedItem(heap, r, child);
  }

  /** ConfigureDefault<TSub, TParent>(accessor, configure, strategy): a new
      SelectorMapperSub for tsub, which dispatches on accessor(obj), becomes the default
      of selector r; the result is the new node. */
  method ConfigureDefaultSub(heap: Heap, r: Ref, accessor: Extractor, tsub: TypeId, strategy: LookupStrategy := ConcreteOnly)
    returns (child: Ref)
    requires heap.graph.Valid() && r in heap.graph.objects && heap.graph.objects[r].Selector?
    modifies heap
    ensures heap.graph.Valid()
    ensures child == old(heap.graph.next)
    ensures heap.graph == old(heap.graph).Extend(NewNode(heap.types, tsub, strategy, TypeName(None, None), Some(accessor)))
                                         .Set(r, WithDefault(old(heap.graph.objects[r]), Some(child)))
  {
    child := heap.Alloc(NewNode(heap.types, tsub, strategy, TypeName(None, None), Some(accessor)));
    SetDefaultMappedItem(heap, r, child);
  }
}
