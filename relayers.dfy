/** The fluent relayers: short-lived values returned by For(...), When(...) and
    Default() that remember which configuration object the next call attaches to.
    Each chain method creates the configuration object the call names and links it
    in: into a selector's store, as a selector's or a conditional's default, or as a
    conditional's next guard. A `configure` action of the source receives the object
    created for it; here the method returns that object instead. */
module Relayers {
  import opened Base
  import opened Types
  import opened Mappers
  import opened Objects
  import MessageProcessor
  import SelectorMapper
  import SelectorConditional

  predicate IsSelector(g: Graph, r: Ref) {
    r in g.objects && g.objects[r].Selector?
  }

  predicate IsConditional(g: Graph, r: Ref) {
    r in g.objects && g.objects[r].Conditional?
  }

  predicate IsProcessor(g: Graph, r: Ref) {
    r in g.objects && g.objects[r].Leaf?
  }

  /** The object `new MessageProcessor<T>(key)` or `new MessageProcessor<T>(accessor)`
      builds, ty standing for T: a leaf without format values, so that it answers an
      object query with its template as it is. */
  function NewProcessor(source: MessageSource, ty: TypeId): (r: Node)
    ensures r.Leaf? && r.processor.source == source && r.processor.ty == ty
    ensures r.processor.dataItems == [] && Children(r) == {}
    ensures forall env, obj :: MessageProcessor.GetMessage(env, r.processor, obj) == Ok(MessageProcessor.Template(env, r.processor, obj))
  {
    Leaf(Processor(source, [], ty))
  }

  // ------------------------------------------------------------- SelectorRelayFor

  /** SelectorRelayFor<T, TParent>: the relay of For<T>(), For<T>(key),
      For<T>(accessor) (value None) and For(value) (value Some, and T is the
      selector's own type) on the selector `selector`. */
  datatype SelectorRelayFor = SelectorRelayFor(selector: Ref, forType: TypeId, value: Option<Value>, typeName: TypeName)
  {
    /** The store update AddToSelectorMap makes: under the value for a value-based
        relay, under key T otherwise. */
    function AddKey(m: Mapper<Ref>, item: Ref): (r: Result<Mapper<Ref>>)
      ensures value.Some? ==> r == AddValue(m, value.value, item)
      ensures value.None? ==> r == AddType(m, forType, item)
    {
      if value.Some? then AddValue(m, value.value, item) else AddType(m, forType, item)
    }

    /** Registering the same key a second time on a store fails with a duplicate key,
        whatever the second item; the store of the first registration finds the first
        item for the key. */
    lemma SecondRegistrationFails(h: Hierarchy, m: Mapper<Ref>, first: Ref, second: Ref)
      requires AddKey(m, first).Ok?
      ensures AddKey(AddKey(m, first).value, second) == Err(DuplicateKey)
      ensures value.Some? ==> FindValue(h, AddKey(m, first).value, value.value) == Ok(Some(first))
      ensures value.None? ==> FindType(h, AddKey(m, first).value, forType) == Some(first)
    {
      if value.Some? {
        AddThenFind(h, m, value.value, first);
      }
    }

    /** AddToSelectorMap(item): item added to the selector's store; when the store
        refuses the key the selector is unchanged. */
    method AddToSelectorMap(heap: Heap, item: Ref) returns (res: Result<Ref>)
      requires heap.graph.Valid() && IsSelector(heap.graph, selector) && selector < item < heap.graph.next
      modifies heap
      ensures heap.graph.Valid()
      ensures var n := old(heap.graph.objects[selector]);
              var added := AddKey(n.mapper, item);
              && (added.Err? ==> res == Err(added.error) && heap.graph == old(heap.graph))
              && (added.Ok? ==> res == Ok(item) && heap.graph == old(heap.graph).Set(selector, n.(mapper := added.value)))
    {
      var n := heap.graph.objects[selector];
      var added := AddKey(n.mapper, item);
      if added.Err? {
        return Err(added.error);
      }
      assert Children(n.(mapper := added.value)) == Children(n) + {item};
      heap.Update(selector, n.(mapper := added.value));
      res := Ok(item);
    }

    /** UseMessage(resourceKey) and UseMessage(accessor): a new processor for the
        source, added to the selector's store. The result is that processor. */
    method UseMessage(heap: Heap, source: MessageSource) returns (res: Result<Ref>)
      requires heap.graph.Valid() && IsSelector(heap.graph, selector)
      modifies heap
      ensures heap.graph.Valid()
      ensures var item, n := old(heap.graph.next), old(heap.graph.objects[selector]);
              var added := AddKey(n.mapper, item);
              var extended := old(heap.graph).Extend(NewProcessor(source, forType));
              && (added.Err? ==> res == Err(added.error) && heap.graph == extended)
              && (added.Ok? ==> res == Ok(item) && heap.graph == extended.Set(selector, n.(mapper := added.value)))
    {
      var item := heap.Alloc(NewProcessor(source, forType));
      res := AddToSelectorMap(heap, item);
    }

    /** When(condition): a new conditional for T carrying this relay's type name, added
        to the selector's store; the result is the relay of its first guard. */
    method When(heap: Heap, condition: Condition) returns (res: Result<ConditionalRelayWhen>)
      requires heap.graph.Valid() && IsSelector(heap.graph, selector)
      modifies heap
      ensures heap.graph.Valid()
      ensures var item, n := old(heap.graph.next), old(heap.graph.objects[selector]);
              var added := AddKey(n.mapper, item);
              var extended := old(heap.graph).Extend(SelectorConditional.NewNode(forType, typeName));
              && (added.Err? ==> res == Err(added.error) && heap.graph == extended)
              && (added.Ok? ==> res == Ok(ConditionalRelayWhen(item, condition)) &&
                                heap.graph == extended.Set(selector, n.(mapper := added.value)))
    {
      var item := SelectorConditional.New(heap, forType, typeName);
      var added := AddToSelectorMap(heap, item);
      if added.Err? {
        return Err(added.error);
      }
      res := Ok(ConditionalRelayWhen(item, condition));
    }

    /** Default(): Configure<T> on the selector with the default arguments (ConcreteOnly,
        key "", no accessor): a new selector for T under key T, whatever the value of a
        value-based relay and whatever its type name. The result is the default relay of
        the new selector, not of the parent. */
    method Default(heap: Heap) returns (res: Result<SelectorRelayDefault>)
      requires heap.graph.Valid() && IsSelector(heap.graph, selector)
      modifies heap
      ensures heap.graph.Valid()
      ensures var item, n := old(heap.graph.next), old(heap.graph.objects[selector]);
              var added := AddType(n.mapper, forType, item);
              var extended := old(heap.graph).Extend(SelectorMapper.NewNode(heap.types, forType, ConcreteOnly, TypeName(Some(""), None), None));
              && (added.Err? ==> res == Err(added.error) && heap.graph == extended)
              && (added.Ok? ==> res == Ok(SelectorRelayDefault(item)) &&
                                heap.graph == extended.Set(selector, n.(mapper := added.value)))
    {
      var child := SelectorMapper.Configure(heap, selector, forType);
      if child.Err? {
        return Err(child.error);
      }
      res := Ok(SelectorRelayDefault(child.value));
    }

    /** Configure(configure): Configure<T> on the selector with InheritChain and this
        relay's type name. The result is the new selector. */
    method Configure(heap: Heap) returns (res: Result<Ref>)
      requires heap.graph.Valid() && IsSelector(heap.graph, selector)
      modifies heap
      ensures heap.graph.Valid()
      ensures var item, n := old(heap.graph.next), old(heap.graph.objects[selector]);
              var added := AddType(n.mapper, forType, item);
              var extended := old(heap.graph).Extend(SelectorMapper.NewNode(heap.types, forType, InheritChain, typeName, None));
              && (added.Err? ==> res == Err(added.error) && heap.graph == extended)
              && (added.Ok? ==> res == Ok(item) && heap.graph == extended.Set(selector, n.(mapper := added.value)))
    {
      res := SelectorMapper.Configure(heap, selector, forType, InheritChain, typeName.resourceKey, typeName.accessor);
    }

    /** Configure<TSub>(accessor, configure): two objects. First a new InheritChain
        selector for T holding this relay's type name, under key T in the selector's
        store; then, also under key T, a new ConcreteOnly sub-value selector for tsub in
        the store of that first one. The result is the sub-value selector. When T is a
        value type the first selector's store is a value store, the second addition
        fails, and the first one stays in place. */
    method ConfigureSub(heap: Heap, accessor: Extractor, tsub: TypeId) returns (res: Result<Ref>)
      requires heap.graph.Valid() && IsSelector(heap.graph, selector)
      modifies heap
      ensures heap.graph.Valid()
      ensures var mid, n := old(heap.graph.next), old(heap.graph.objects[selector]);
              var added := AddType(n.mapper, forType, mid);
              var midNode := SelectorMapper.NewNode(heap.types, forType, InheritChain, typeName, None);
              var subNode := SelectorMapper.NewNode(heap.types, tsub, ConcreteOnly, TypeName(None, None), Some(accessor));
              var first := old(heap.graph).Extend(midNode);
              var inner := AddType(midNode.mapper, forType, mid + 1);
              && (added.Err? ==> res == Err(added.error) && heap.graph == first)
              && (added.Ok? && inner.Err? ==>
                    res == Err(TypeKeyOnValueStore) && IsValueType(heap.types, forType) &&
                    heap.graph == first.Set(selector, n.(mapper := added.value)).Extend(subNode))
              && (added.Ok? && inner.Ok? ==>
                    res == Ok(mid + 1) && !IsValueType(heap.types, forType) &&
                    heap.graph == first.Set(selector, n.(mapper := added.value)).Extend(subNode).Set(mid, midNode.(mapper := inner.value)))
    {
      var mid := SelectorMapper.Configure(heap, selector, forType, InheritChain, typeName.resourceKey, typeName.accessor);
      if mid.Err? {
        return Err(mid.error);
      }
      var midNode := heap.graph.objects[mid.value];
      var sub := heap.Alloc(SelectorMapper.NewNode(heap.types, tsub, ConcreteOnly, TypeName(None, None), Some(accessor)));
      var inner := AddType(midNode.mapper, forType, sub);
      if inner.Err? {
        return Err(inner.error);
      }
      assert Children(midNode.(mapper := inner.value)) == Children(midNode) + {sub};
      heap.Update(mid.value, midNode.(mapper := inner.value));
      res := Ok(sub);
    }
  }

  /** SelectorMapper.For<TSub>(), For<TSub>(key), For<TSub>(accessor): a type-based
      relay for tsub carrying the given type name. */
  function For(selector: Ref, tsub: TypeId, typeName: TypeName := TypeName(None, None)): (r: SelectorRelayFor)
    ensures r.selector == selector && r.forType == tsub && r.typeName == typeName
    ensures forall m: Mapper<Ref>, item: Ref :: r.AddKey(m, item) == AddType(m, tsub, item)
  {
    SelectorRelayFor(selector, tsub, None, typeName)
  }

  /** SelectorMapper.For(value): a value-based relay; its T is the selector's own type. */
  function ForValue(g: Graph, selector: Ref, v: Value): (r: SelectorRelayFor)
    requires IsSelector(g, selector)
    ensures r.selector == selector && r.forType == g.objects[selector].ty && r.typeName == TypeName(None, None)
    ensures forall m: Mapper<Ref>, item: Ref :: r.AddKey(m, item) == AddValue(m, v, item)
  {
    SelectorRelayFor(selector, g.objects[selector].ty, Some(v), TypeName(None, None))
  }

  // --------------------------------------------------------- SelectorRelayDefault

  /** SelectorRelayDefault<T, TParent>: the relay of Default() on a selector, whose
      T is the selector's own type. Every method replaces the selector's default and
      leaves its store as it is. */
  datatype SelectorRelayDefault = SelectorRelayDefault(selector: Ref)
  {
    /** UseMessage(resourceKey) and UseMessage(accessor): a new processor becomes the
        selector's default. The result is that processor. */
    method UseMessage(heap: Heap, source: MessageSource) returns (item: Ref)
      requires heap.graph.Valid() && IsSelector(heap.graph, selector)
      modifies heap
      ensures heap.graph.Valid()
      ensures item == old(heap.graph.next)
      ensures heap.graph == old(heap.graph).Extend(NewProcessor(source, old(heap.graph.objects[selector]).ty))
                                           .Set(selector, WithDefault(old(heap.graph.objects[selector]), Some(item)))
    {
      item := heap.Alloc(NewProcessor(source, heap.graph.objects[selector].ty));
      SelectorMapper.SetDefaultMappedItem(heap, selector, item);
    }

    /** Configure(configure): ConfigureDefault<T>: a new ConcreteOnly selector for T
        becomes the default. The result is the new selector. */
    method Configure(heap: Heap) returns (child: Ref)
      requires heap.graph.Valid() && IsSelector(heap.graph, selector)
      modifies heap
      ensures heap.graph.Valid()
      ensures child == old(heap.graph.next)
      ensures var n := old(heap.graph.objects[selector]);
              heap.graph == old(heap.graph).Extend(SelectorMapper.NewNode(heap.types, n.ty, ConcreteOnly, TypeName(None, None), None))
                                           .Set(selector, WithDefault(n, Some(child)))
    {
      child := SelectorMapper.ConfigureDefault(heap, selector, heap.graph.objects[selector].ty);
    }

    /** Configure<TSub>(accessor, configure): ConfigureDefault<TSub, T>: a new
        ConcreteOnly sub-value selector for tsub becomes the default. The result is the
        new selector. */
    method ConfigureSub(heap: Heap, accessor: Extractor, tsub: TypeId) returns (child: Ref)
      requires heap.graph.Valid() && IsSelector(heap.graph, selector)
      modifies heap
      ensures heap.graph.Valid()
      ensures child == old(heap.graph.next)
      ensures heap.graph == old(heap.graph).Extend(SelectorMapper.NewNode(heap.types, tsub, ConcreteOnly, TypeName(None, None), Some(accessor)))
                                           .Set(selector, WithDefault(old(heap.graph.objects[selector]), Some(child)))
    {
      child := SelectorMapper.ConfigureDefaultSub(heap, selector, accessor, tsub);
    }
  }

  // --------------------------------------------------------- ConditionalRelayWhen

  /** ConditionalRelayWhen<T>: the relay of When(condition) on a conditional. Every
      method appends the guard (condition, new object) and leaves the default as it
      is. */
  datatype ConditionalRelayWhen = ConditionalRelayWhen(selector: Ref, condition: Condition)
  {
    /** UseMessage(resourceKey) and UseMessage(accessor): the guard selects a new
        processor; the result is the relay of that processor on the same conditional. */
    method UseMessage(heap: Heap, source: MessageSource) returns (next: ConditionalRelayMessage)
      requires heap.graph.Valid() && IsConditional(heap.graph, selector)
      modifies heap
      ensures heap.graph.Valid()
      ensures var item, n := old(heap.graph.next), old(heap.graph.objects[selector]);
              && next == ConditionalRelayMessage(selector, item)
              && heap.graph == old(heap.graph).Extend(NewProcessor(source, n.ty))
                                              .Set(selector, n.(items := n.items + [ConditionalItem(condition, item)]))
    {
      var item := heap.Alloc(NewProcessor(source, heap.graph.objects[selector].ty));
      SelectorConditional.AddConditionItem(heap, selector, condition, item);
      next := ConditionalRelayMessage(selector, item);
    }

    /** Configure(configure): the guard selects a new ConcreteOnly selector for T, the
        conditional's own type. The result is the new selector. */
    method Configure(heap: Heap) returns (item: Ref)
      requires heap.graph.Valid() && IsConditional(heap.graph, selector)
      modifies heap
      ensures heap.graph.Valid()
      ensures var n := old(heap.graph.objects[selector]);
              && item == old(heap.graph.next)
              && heap.graph == old(heap.graph).Extend(SelectorMapper.NewNode(heap.types, n.ty, ConcreteOnly, TypeName(None, None), None))
                                              .Set(selector, n.(items := n.items + [ConditionalItem(condition, item)]))
    {
      item := SelectorMapper.New(heap, heap.graph.objects[selector].ty);
      SelectorConditional.AddConditionItem(heap, selector, condition, item);
    }

    /** Configure<TSub>(accessor, configure): the guard selects a new ConcreteOnly
        sub-value selector for tsub. The result is the new selector. */
    method ConfigureSub(heap: Heap, accessor: Extractor, tsub: TypeId) returns (item: Ref)
      requires heap.graph.Valid() && IsConditional(heap.graph, selector)
      modifies heap
      ensures heap.graph.Valid()
      ensures var n := old(heap.graph.objects[selector]);
              && item == old(heap.graph.next)
              && heap.graph == old(heap.graph).Extend(SelectorMapper.NewNode(heap.types, tsub, ConcreteOnly, TypeName(None, None), Some(accessor)))
                                              .Set(selector, n.(items := n.items + [ConditionalItem(condition, item)]))
    {
      item := heap.Alloc(SelectorMapper.NewNode(heap.types, tsub, ConcreteOnly, TypeName(None, None), Some(accessor)));
      SelectorConditional.AddConditionItem(heap, selector, condition, item);
    }
  }

  // ------------------------------------------------------ ConditionalRelayDefault

  /** ConditionalRelayDefault<T>: the relay of Default() on a conditional. Every method
      replaces the conditional's default and leaves its guards as they are. */
  datatype ConditionalRelayDefault = ConditionalRelayDefault(selector: Ref)
  {
    /** UseMessage(resourceKey) and UseMessage(accessor): a new processor becomes the
        default. The result is that processor. */
    method UseMessage(heap: Heap, source: MessageSource) returns (item: Ref)
      requires heap.graph.Valid() && IsConditional(heap.graph, selector)
      modifies heap
      ensures heap.graph.Valid()
      ensures item == old(heap.graph.next)
      ensures heap.graph == old(heap.graph).Extend(NewProcessor(source, old(heap.graph.objects[selector]).ty))
                                           .Set(selector, WithDefault(old(heap.graph.objects[selector]), Some(item)))
    {
      item := heap.Alloc(NewProcessor(source, heap.graph.objects[selector].ty));
      SelectorConditional.SetDefaultItem(heap, selector, item);
    }

    /** Configure(configure): a new ConcreteOnly selector for T becomes the default. */
    method Configure(heap: Heap) returns (item: Ref)
      requires heap.graph.Valid() && IsConditional(heap.graph, selector)
      modifies heap
      ensures heap.graph.Valid()
      ensures var n := old(heap.graph.objects[selector]);
              && item == old(heap.graph.next)
              && heap.graph == old(heap.graph).Extend(SelectorMapper.NewNode(heap.types, n.ty, ConcreteOnly, TypeName(None, None), None))
                                              .Set(selector, WithDefault(n, Some(item)))
    {
      item := SelectorMapper.New(heap, heap.graph.objects[selector].ty);
      SelectorConditional.SetDefaultItem(heap, selector, item);
    }

    /** Configure<TSub>(accessor, configure): a new ConcreteOnly sub-value selector for
        tsub becomes the default. */
    method ConfigureSub(heap: Heap, accessor: Extractor, tsub: TypeId) returns (item: Ref)
      requires heap.graph.Valid() && IsConditional(heap.graph, selector)
      modifies heap
      ensures heap.graph.Valid()
      ensures item == old(heap.graph.next)
      ensures heap.graph == old(heap.graph).Extend(SelectorMapper.NewNode(heap.types, tsub, ConcreteOnly, TypeName(None, None), Some(accessor)))
                                           .Set(selector, WithDefault(old(heap.graph.objects[selector]), Some(item)))
    {
      item := heap.Alloc(SelectorMapper.NewNode(heap.types, tsub, ConcreteOnly, TypeName(None, None), Some(accessor)));
      SelectorConditional.SetDefaultItem(heap, selector, item);
    }
  }

  // ------------------------------------------------------ ConditionalRelayMessage

  /** ConditionalRelayMessage<T>: the relay after a guard's UseMessage, bound to the
      conditional and to the processor that guard selects. */
  datatype ConditionalRelayMessage = ConditionalRelayMessage(selector: Ref, processor: Ref)
  {
    /** WithValue(valueAccessor): one more format value on the bound processor; the
        result is this same relay. */
    method WithValue(heap: Heap, valueAccessor: Accessor) returns (same: ConditionalRelayMessage)
      requires heap.graph.Valid() && IsProcessor(heap.graph, processor)
      modifies heap
      ensures heap.graph.Valid() && same == this
      ensures heap.graph == old(heap.graph).Set(processor, Leaf(MessageProcessor.AddValue(old(heap.graph.objects[processor].processor), valueAccessor)))
    {
      var _ := MessageProcessor.WithValue(heap, processor, valueAccessor);
      same := this;
    }

    /** When(condition): the next guard's relay, on the same conditional. */
    function When(condition: Condition): (r: ConditionalRelayWhen)
      ensures r.selector == selector
    {
      ConditionalRelayWhen(selector, condition)
    }

    /** Default(): the default relay of the same conditional. */
    function Default(): (r: ConditionalRelayDefault)
      ensures r.selector == selector
    {
      ConditionalRelayDefault(selector)
    }
  }
}
