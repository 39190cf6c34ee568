/** Message resolution: a query walks the configuration from one object down to a
    message processor. Each composite object either hands the query to one of the
    objects it refers to, falls back to its default, or answers "" when neither
    applies. The source spreads this over the GetMessage and GetMessageFromMapping
    overrides of each class; here they are one family of mutually recursive functions,
    which terminates because every object refers only to objects allocated after it. */
module Resolution {
  import opened Base
  import opened Types
  import opened Mappers
  import opened Objects
  import MessageProcessor
  import MappedItem
  import SelectorMapper
  import SelectorConditional

  /** The failures an object query can raise: a null or wrong-typed value reaching a
      store, or a template that cannot be formatted. */
  predicate ObjectQueryError(e: Error) {
    e in {NullReference, TypeMismatch, NullFormat, FormatError}
  }

  /** IMappedItem.GetMessage(object) on object r. On a composite object this is
      MappedItem.GetMessage(object), which goes straight to GetMessageFromMapping: the
      type name plays no part in an object query. */
  function GetMessage(env: Env, g: Graph, r: Ref, obj: Value): (res: Result<Option<string>>)
    requires g.Valid() && r in g.objects
    ensures res.Err? ==> ObjectQueryError(res.error)
    decreases g.next - r, 2
  {
    match g.objects[r]
    case Leaf(p) => MessageProcessor.GetMessage(env, p, obj)
    case Selector(_, _, _, _, subAccessor) =>
      if subAccessor.None? then SelectorGetMessageFromMapping(env, g, r, obj)
      else SubGetMessageFromMapping(env, g, r, obj)
    case Conditional(_, _, _, _) => ConditionalGetMessageFromMapping(env, g, r, obj)
  }

  /** SelectorMapper.GetMessageFromMapping(object): the selected object answers for the
      same value; "" when nothing is selected. */
  function SelectorGetMessageFromMapping(env: Env, g: Graph, r: Ref, v: Value): (res: Result<Option<string>>)
    requires g.Valid() && r in g.objects && g.objects[r].Selector?
    ensures res.Err? ==> ObjectQueryError(res.error)
    decreases g.next - r, 0
  {
    match SelectorMapper.FindItem(env.types, g.objects[r], v)
    case Err(e) => Err(e)
    case Ok(found) => if found.None? then Ok(Some("")) else GetMessage(env, g, found.value, v)
  }

  /** SelectorMapperSub.GetMessageFromMapping(object): dispatch on the derived
      sub-object, which is also what the selected object is given. */
  function SubGetMessageFromMapping(env: Env, g: Graph, r: Ref, obj: Value): (res: Result<Option<string>>)
    requires g.Valid() && r in g.objects && g.objects[r].Selector? && g.objects[r].subAccessor.Some?
    ensures res == SelectorGetMessageFromMapping(env, g, r, g.objects[r].subAccessor.value(obj))
    decreases g.next - r, 1
  {
    SelectorGetMessageFromMapping(env, g, r, g.objects[r].subAccessor.value(obj))
  }

  /** SelectorConditional.GetMessageFromMapping(object): the object chosen by the first
      guard that holds, or the default, answers for the same value; "" otherwise. */
  function ConditionalGetMessageFromMapping(env: Env, g: Graph, r: Ref, obj: Value): (res: Result<Option<string>>)
    requires g.Valid() && r in g.objects && g.objects[r].Conditional?
    ensures res.Err? ==> ObjectQueryError(res.error)
    decreases g.next - r, 0
  {
    var found := SelectorConditional.FindItem(g.objects[r], obj);
    if found.None? then Ok(Some("")) else GetMessage(env, g, found.value, obj)
  }

  /** The failures a type query can raise, both where a message accessor or a type-name
      accessor is applied to a default instance of the queried type: the type has no
      parameterless constructor, or the instance does not cast to the processor's T. */
  predicate TypeQueryError(e: Error) {
    e in {MissingDefaultConstructor, InvalidCast}
  }

  /** IMappedItem.GetMessage(Type) on object r. On a composite object this is
      MappedItem.GetMessage(Type): when the queried type is the object's own type and
      the object has a type name, the type name answers; otherwise
      GetMessageFromMapping(Type). */
  function GetMessageForType(env: Env, g: Graph, r: Ref, t: TypeId): (res: Result<Option<string>>)
    requires g.Valid() && r in g.objects
    ensures res.Err? ==> TypeQueryError(res.error)
    decreases g.next - r, 1
  {
    match g.objects[r]
    case Leaf(p) => MessageProcessor.GetMessageForType(env, p, t)
    case Selector(ty, typeName, _, _, _) =>
      var shortcut := MappedItem.GetCurrentMessageProcessor(typeName, ty);
      if t == ty && shortcut.Some? then MessageProcessor.GetMessageForType(env, shortcut.value, t)
      else SelectorGetMessageFromMappingForType(env, g, r, t)
    case Conditional(ty, typeName, _, _) =>
      var shortcut := MappedItem.GetCurrentMessageProcessor(typeName, ty);
      if t == ty && shortcut.Some? then MessageProcessor.GetMessageForType(env, shortcut.value, t)
      else Ok(Some(""))
  }

  /** SelectorMapper.GetMessageFromMapping(Type), which SelectorMapperSub does not
      override: the selected object answers for the same type; "" when nothing is
      selected. */
  function SelectorGetMessageFromMappingForType(env: Env, g: Graph, r: Ref, t: TypeId): (res: Result<Option<string>>)
    requires g.Valid() && r in g.objects && g.objects[r].Selector?
    ensures res.Err? ==> TypeQueryError(res.error)
    decreases g.next - r, 0
  {
    var found := SelectorMapper.FindItemForType(env.types, g.objects[r], t);
    if found.None? then Ok(Some("")) else GetMessageForType(env, g, found.value, t)
  }

  // ------------------------------------------------------------ one step down

  /** A selector whose store maps the value v hands the query, unchanged, to the mapped
      object, whose answer is final even when it is "" (the default is not consulted).
      On a plain selector v is the queried object; on a sub-value selector it is the
      derived value (SubDispatchesOnDerivedValue). */
  lemma SelectorMatchedChildAnswers(env: Env, g: Graph, r: Ref, v: Value, c: Ref)
    requires g.Valid() && r in g.objects && g.objects[r].Selector?
    requires FindValue(env.types, g.objects[r].mapper, v) == Ok(Some(c))
    ensures c in g.objects && SelectorGetMessageFromMapping(env, g, r, v) == GetMessage(env, g, c, v)
    ensures g.objects[r].subAccessor.None? ==> GetMessage(env, g, r, v) == GetMessage(env, g, c, v)
  {
    assert c in Children(g.objects[r]);
  }

  /** A selector whose store does not map the value v hands the query to its default,
      or answers "" without one. */
  lemma SelectorUnmatchedUsesDefault(env: Env, g: Graph, r: Ref, v: Value)
    requires g.Valid() && r in g.objects && g.objects[r].Selector?
    requires FindValue(env.types, g.objects[r].mapper, v) == Ok(None)
    ensures var d := g.objects[r].defaultItem;
            d.Some? ==> d.value in g.objects && SelectorGetMessageFromMapping(env, g, r, v) == GetMessage(env, g, d.value, v)
    ensures g.objects[r].defaultItem.None? ==> SelectorGetMessageFromMapping(env, g, r, v) == Ok(Some(""))
    ensures g.objects[r].subAccessor.None? ==> GetMessage(env, g, r, v) == SelectorGetMessageFromMapping(env, g, r, v)
  {
    var d := g.objects[r].defaultItem;
    if d.Some? {
      assert d.value in Children(g.objects[r]);
    }
  }

  /** The type-query counterpart: a selector whose store holds an item for type t hands
      the type query, unchanged, to that item; a sub-value accessor plays no part. */
  lemma SelectorMatchedChildAnswersForType(env: Env, g: Graph, r: Ref, t: TypeId, c: Ref)
    requires g.Valid() && r in g.objects && g.objects[r].Selector?
    requires FindType(env.types, g.objects[r].mapper, t) == Some(c)
    ensures c in g.objects && SelectorGetMessageFromMappingForType(env, g, r, t) == GetMessageForType(env, g, c, t)
  {
    assert c in Children(g.objects[r]);
  }

  /** A selector whose store holds nothing for type t (always so on a value store)
      hands the type query to its default, or answers "" without one. */
  lemma SelectorUnmatchedUsesDefaultForType(env: Env, g: Graph, r: Ref, t: TypeId)
    requires g.Valid() && r in g.objects && g.objects[r].Selector?
    requires FindType(env.types, g.objects[r].mapper, t).None?
    ensures var d := g.objects[r].defaultItem;
            d.Some? ==> d.value in g.objects && SelectorGetMessageFromMappingForType(env, g, r, t) == GetMessageForType(env, g, d.value, t)
    ensures g.objects[r].defaultItem.None? ==> SelectorGetMessageFromMappingForType(env, g, r, t) == Ok(Some(""))
  {
    var d := g.objects[r].defaultItem;
    if d.Some? {
      assert d.value in Children(g.objects[r]);
    }
  }

  /** A sub-value selector answers exactly as the same selector without the accessor
      would answer for the derived value: the derived value is dispatched on and is
      what the selected object receives. */
  lemma SubDispatchesOnDerivedValue(env: Env, g: Graph, r: Ref, obj: Value)
    requires g.Valid() && r in g.objects && g.objects[r].Selector? && g.objects[r].subAccessor.Some?
    ensures GetMessage(env, g, r, obj) == SelectorGetMessageFromMapping(env, g, r, g.objects[r].subAccessor.value(obj))
  {
  }

  /** A conditional hands the query, unchanged, to the object of the first guard that
      holds; without one, to its default; without a default it answers "". */
  lemma ConditionalFirstMatchAnswers(env: Env, g: Graph, r: Ref, obj: Value)
    requires g.Valid() && r in g.objects && g.objects[r].Conditional?
    ensures var n := g.objects[r];
            var k := SelectorConditional.FirstMatch(n.items, obj);
            && (k.Some? ==> n.items[k.value].item in g.objects &&
                            GetMessage(env, g, r, obj) == GetMessage(env, g, n.items[k.value].item, obj))
            && (k.None? && n.defaultItem.Some? ==>
                  n.defaultItem.value in g.objects &&
                  GetMessage(env, g, r, obj) == GetMessage(env, g, n.defaultItem.value, obj))
            && (k.None? && n.defaultItem.None? ==> GetMessage(env, g, r, obj) == Ok(Some("")))
  {
    var n := g.objects[r];
    var k := SelectorConditional.FirstMatch(n.items, obj);
    if k.Some? {
      assert n.items[k.value].item in Children(n);
    } else if n.defaultItem.Some? {
      assert n.defaultItem.value in Children(n);
    }
  }

  /** A type query on a composite object's own type, when the object has a type name,
      is answered by a processor built from that type name. */
  lemma TypeNameAnswersOwnType(env: Env, g: Graph, r: Ref)
    requires g.Valid() && r in g.objects && !g.objects[r].Leaf?
    requires MappedItem.GetCurrentMessageProcessor(g.objects[r].typeName, g.objects[r].ty).Some?
    ensures GetMessageForType(env, g, r, g.objects[r].ty) ==
            MessageProcessor.GetMessageForType(env, MappedItem.GetCurrentMessageProcessor(g.objects[r].typeName, g.objects[r].ty).value, g.objects[r].ty)
    ensures GetMessageForType(env, g, r, g.objects[r].ty).Err? ==>
              GetMessageForType(env, g, r, g.objects[r].ty) == Err(MissingDefaultConstructor)
  {
    var ty := g.objects[r].ty;
    assert Chain(env.types, ty)[0] == ty;
    assert CastSucceeds(env.types, ty, ty);
  }

  /** Any other type, a subtype included, and any type at all when the object has no
      type name, goes to the mapping: the selector's store and default, or "" on a
      conditional, even one with a default. */
  lemma OtherTypesUseMapping(env: Env, g: Graph, r: Ref, t: TypeId)
    requires g.Valid() && r in g.objects && !g.objects[r].Leaf?
    requires t != g.objects[r].ty || MappedItem.GetCurrentMessageProcessor(g.objects[r].typeName, g.objects[r].ty).None?
    ensures g.objects[r].Selector? ==> GetMessageForType(env, g, r, t) == SelectorGetMessageFromMappingForType(env, g, r, t)
    ensures g.objects[r].Conditional? ==> GetMessageForType(env, g, r, t) == Ok(Some(""))
  {
  }

  // ------------------------------------------------------------ whole walks

  /** Only objects allocated from r onwards take part in a query from r: two heaps that
      agree on them give every query from r the same answer. */
  lemma {:induction false} QueriesDependOnlyOnLaterObjects(env: Env, g: Graph, g': Graph, lo: Ref, r: Ref, obj: Value, t: TypeId)
    requires g.Valid() && g'.Valid() && r in g.objects && lo <= r
    requires forall x :: lo <= x < g.next ==> x in g'.objects && g'.objects[x] == g.objects[x]
    ensures r in g'.objects
    ensures GetMessage(env, g', r, obj) == GetMessage(env, g, r, obj)
    ensures GetMessageForType(env, g', r, t) == GetMessageForType(env, g, r, t)
    decreases g.next - r
  {
    var n := g.objects[r];
    match n
    case Leaf(_) =>
    case Selector(_, _, _, _, subAccessor) =>
      var v := if subAccessor.Some? then subAccessor.value(obj) else obj;
      var found := SelectorMapper.FindItem(env.types, n, v);
      if found.Ok? && found.value.Some? {
        QueriesDependOnlyOnLaterObjects(env, g, g', lo, found.value.value, v, t);
      }
      var foundType := SelectorMapper.FindItemForType(env.types, n, t);
      if foundType.Some? {
        QueriesDependOnlyOnLaterObjects(env, g, g', lo, foundType.value, obj, t);
      }
    case Conditional(_, _, _, _) =>
      var found := SelectorConditional.FindItem(n, obj);
      if found.Some? {
        QueriesDependOnlyOnLaterObjects(env, g, g', lo, found.value, obj, t);
      }
  }

  /** Allocating objects changes no query from an object that already exists. */
  lemma AllocationKeepsMessages(env: Env, g: Graph, g': Graph, r: Ref, obj: Value, t: TypeId)
    requires g.Valid() && g'.Valid() && r in g.objects
    requires forall x :: x in g.objects ==> x in g'.objects && g'.objects[x] == g.objects[x]
    ensures r in g'.objects
    ensures GetMessage(env, g', r, obj) == GetMessage(env, g, r, obj)
    ensures GetMessageForType(env, g', r, t) == GetMessageForType(env, g, r, t)
  {
    QueriesDependOnlyOnLaterObjects(env, g, g', 0, r, obj, t);
  }

  /** Adding key k to the store of a selector r (Configure<TSub> and the relayers do
      this) leaves the answer for every object whose runtime type is not affected by k
      unchanged: under InheritChain, objects of types that do not derive from k; under
      ConcreteOnly, objects of any other type. */
  lemma {:induction false} AddedKeyKeepsOtherMessages(env: Env, g: Graph, g': Graph, r: Ref, k: TypeId, child: Ref, obj: Value)
    requires g.Valid() && g'.Valid() && r in g.objects
    requires g.objects[r].Selector? && g.objects[r].subAccessor.None? && g.objects[r].mapper.TypeMapper?
    requires AddType(g.objects[r].mapper, k, child).Ok?
    requires r in g'.objects && g'.objects[r] == g.objects[r].(mapper := AddType(g.objects[r].mapper, k, child).value)
    requires forall x :: x in g.objects && x != r ==> x in g'.objects && g'.objects[x] == g.objects[x]
    requires obj.Obj?
    requires var m := g.objects[r].mapper;
             !IsAncestorOrSelf(env.types, k, obj.ty) || (m.strategy == ConcreteOnly && k != obj.ty)
    ensures GetMessage(env, g', r, obj) == GetMessage(env, g, r, obj)
  {
    var n, n' := g.objects[r], g'.objects[r];
    TypeFindUnaffectedByAdd(env.types, n.mapper.types, n.mapper.strategy, k, child, obj.ty);
    assert SelectorMapper.FindItem(env.types, n', obj) == SelectorMapper.FindItem(env.types, n, obj);
    var found := SelectorMapper.FindItem(env.types, n, obj);
    if found.Ok? && found.value.Some? {
      QueriesDependOnlyOnLaterObjects(env, g, g', r + 1, found.value.value, obj, Object);
    }
  }

  /** From an InheritChain selector without a sub-value accessor, an object is answered
      by the entry of the most specific type on its base-type chain that the store
      holds; when no type on the chain is held, by the default, or "" without one. */
  lemma {:induction false} InheritChainAnswersNearestAncestor(env: Env, g: Graph, r: Ref, obj: Value)
    requires g.Valid() && r in g.objects && obj.Obj?
    requires g.objects[r].Selector? && g.objects[r].subAccessor.None?
    requires g.objects[r].mapper.TypeMapper? && g.objects[r].mapper.strategy == InheritChain
    ensures var n := g.objects[r];
            var types := n.mapper.types;
            && ((exists a :: IsAncestorOrSelf(env.types, a, obj.ty) && a in types) ==>
                  exists a :: && IsAncestorOrSelf(env.types, a, obj.ty) && a in types
                              && (forall b :: IsAncestorOrSelf(env.types, b, obj.ty) && b in types ==> IsAncestorOrSelf(env.types, b, a))
                              && types[a] in g.objects
                              && GetMessage(env, g, r, obj) == GetMessage(env, g, types[a], obj))
            && ((forall a :: IsAncestorOrSelf(env.types, a, obj.ty) ==> a !in types) ==>
                  && (n.defaultItem.Some? ==> n.defaultItem.value in g.objects &&
                                              GetMessage(env, g, r, obj) == GetMessage(env, g, n.defaultItem.value, obj))
                  && (n.defaultItem.None? ==> GetMessage(env, g, r, obj) == Ok(Some(""))))
  {
    var n := g.objects[r];
    var types := n.mapper.types;
    InheritChainFindsNearestAncestor(env.types, types, obj.ty);
    if (exists a :: IsAncestorOrSelf(env.types, a, obj.ty) && a in types) {
      var a :| && IsAncestorOrSelf(env.types, a, obj.ty) && a in types
               && TypeFind(env.types, types, InheritChain, obj.ty) == Some(types[a])
               && forall b :: IsAncestorOrSelf(env.types, b, obj.ty) && b in types ==> IsAncestorOrSelf(env.types, b, a);
      assert types[a] in Children(n);
      assert SelectorMapper.FindItem(env.types, n, obj) == Ok(Some(types[a]));
      assert GetMessage(env, g, r, obj) == GetMessage(env, g, types[a], obj);
    } else if n.defaultItem.Some? {
      assert n.defaultItem.value in Children(n);
    }
  }

  /** The type-query counterpart of InheritChainAnswersNearestAncestor: a type query
      for t reaching the mapping of an InheritChain selector (with or without a
      sub-value accessor) is answered by the entry of the most specific type on t's
      base-type chain that the store holds; when the chain holds none, by the default,
      or "" without one. */
  lemma {:induction false} InheritChainAnswersNearestAncestorForType(env: Env, g: Graph, r: Ref, t: TypeId)
    requires g.Valid() && r in g.objects && g.objects[r].Selector?
    requires g.objects[r].mapper.TypeMapper? && g.objects[r].mapper.strategy == InheritChain
    ensures var n := g.objects[r];
            var types := n.mapper.types;
            && ((exists a :: IsAncestorOrSelf(env.types, a, t) && a in types) ==>
                  exists a :: && IsAncestorOrSelf(env.types, a, t) && a in types
                              && (forall b :: IsAncestorOrSelf(env.types, b, t) && b in types ==> IsAncestorOrSelf(env.types, b, a))
                              && types[a] in g.objects
                              && SelectorGetMessageFromMappingForType(env, g, r, t) == GetMessageForType(env, g, types[a], t))
            && ((forall a :: IsAncestorOrSelf(env.types, a, t) ==> a !in types) ==>
                  && (n.defaultItem.Some? ==> n.defaultItem.value in g.objects &&
                                              SelectorGetMessageFromMappingForType(env, g, r, t) == GetMessageForType(env, g, n.defaultItem.value, t))
                  && (n.defaultItem.None? ==> SelectorGetMessageFromMappingForType(env, g, r, t) == Ok(Some(""))))
  {
    var n := g.objects[r];
    var types := n.mapper.types;
    InheritChainFindsNearestAncestor(env.types, types, t);
    if (exists a :: IsAncestorOrSelf(env.types, a, t) && a in types) {
      var a :| && IsAncestorOrSelf(env.types, a, t) && a in types
               && TypeFind(env.types, types, InheritChain, t) == Some(types[a])
               && forall b :: IsAncestorOrSelf(env.types, b, t) && b in types ==> IsAncestorOrSelf(env.types, b, a);
      SelectorMatchedChildAnswersForType(env, g, r, t, types[a]);
    } else {
      SelectorUnmatchedUsesDefaultForType(env, g, r, t);
    }
  }
}
